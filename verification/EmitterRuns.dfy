/** No change is missed: the emitter's windows over whole runs, with writes, failed
    runs and consumers interleaved. */
module EmitterRuns {
  import opened Prelude
  import opened EventTables
  import opened EmitterQuery
  import opened EventSystem
  import opened EventRuns

  // ---- The windows of successful runs adjoin --------------------------------

  /** The emitter run committed at step `c` has `t` in its window. */
  ghost predicate Reaches(r: Run, c: nat, t: Time) {
    && c < |r.steps| && c < |r.states| && r.steps[c].Commit? && r.states[c].run.Scanned?
    && r.states[c].run.lo <= t < r.states[c].run.hi
  }

  lemma LastRunStep(s: State, a: Step, s': State)
    requires Next(s, a, s')
    ensures a.Commit? ==> s.run.Scanned? && s'.lastRun == s.run.hi
    ensures !a.Commit? ==> s'.lastRun == s.lastRun
  {}

  lemma WindowFollows(r: Run, i: nat)
    requires IsRun(r) && i < |r.steps|
    ensures if r.steps[i].Commit?
            then r.states[i].run.Scanned? && r.states[i].run.lo == r.states[i].lastRun
                 && r.states[i + 1].lastRun == r.states[i].run.hi
            else r.states[i + 1].lastRun == r.states[i].lastRun
  {
    RunKeepsInv(r, i, i);
    RunStep(r, i);
    LastRunStep(r.states[i], r.steps[i], r.states[i + 1]);
  }

  /** An instant between two values of the last run's time lies in the window of
      exactly one run committed in between, the first whose `now` is past it. */
  lemma {:induction false} WindowsAdjoin(r: Run, m: nat, n: nat, t: Time) returns (c: nat)
    requires IsRun(r) && m <= n <= |r.steps| && r.states[m].lastRun <= t < r.states[n].lastRun
    ensures m <= c < n && Reaches(r, c, t)
    ensures forall d :: m <= d < n && d != c ==> !Reaches(r, d, t)
    ensures forall d :: m <= d < c && r.steps[d].Commit? ==> r.states[d].run.Scanned? && r.states[d].run.hi <= t
  {
    WindowFollows(r, n - 1);
    if t < r.states[n - 1].lastRun {
      c := WindowsAdjoin(r, m, n - 1, t);
    } else {
      c := n - 1;
      forall d | m <= d < c && r.steps[d].Commit?
        ensures r.states[d].run.Scanned? && r.states[d].run.hi <= t
      {
        CommittedBefore(r, d, c);
      }
    }
  }

  lemma CommittedBefore(r: Run, d: nat, c: nat)
    requires IsRun(r) && d < c <= |r.steps| && r.steps[d].Commit?
    ensures r.states[d].run.Scanned? && r.states[d].run.hi <= r.states[c].lastRun
  {
    RunStep(r, d);
    LastRunStep(r.states[d], r.steps[d], r.states[d + 1]);
    RunKeepsInv(r, d + 1, c);
  }

  // ---- A run and its scan ---------------------------------------------------

  /** From after step `i` up to step `c` one and the same scan is being emitted. */
  ghost predicate SameScan(r: Run, i: nat, c: nat) {
    i < c < |r.states| && forall k :: i < k <= c ==> r.states[k].run.Scanned?
  }

  /** Step `b` is the scan that is being emitted at `c`. */
  ghost predicate ScanOf(r: Run, b: nat, c: nat) {
    SameScan(r, b, c) && b < |r.steps| && r.steps[b].Scan?
  }

  lemma {:induction false} FindScan(r: Run, c: nat) returns (b: nat)
    requires IsRun(r) && c <= |r.steps| && r.states[c].run.Scanned?
    ensures ScanOf(r, b, c)
  {
    assert c > 0;
    RunStep(r, c - 1);
    if r.steps[c - 1].Scan? {
      b := c - 1;
    } else {
      b := FindScan(r, c - 1);
    }
  }

  lemma {:induction false} SameScanKeeps(r: Run, i: nat, c: nat)
    requires IsRun(r) && SameScan(r, i, c)
    ensures forall k :: i < k <= c ==>
      && r.states[k].run.Scanned? && r.states[k].run.found == r.states[c].run.found
      && r.states[k].run.lo == r.states[c].run.lo && r.states[k].run.hi == r.states[c].run.hi
  {
    if i + 1 < c {
      SameScanKeeps(r, i, c - 1);
      RunStep(r, c - 1);
    }
  }

  // ---- Later writes leave what a scan saw alone --------------------------------

  /** The writes of the object from step `i` on and before step `n` start at `hi` or later. */
  ghost predicate NotBefore(r: Run, i: nat, n: nat, o: string, hi: Time) {
    forall m: nat :: i <= m < n && m < |r.steps| && r.steps[m].Write? && r.steps[m].subject == o ==>
      hi <= r.steps[m].registration.from
  }

  predicate StepNotBefore(a: Step, o: string, hi: Time) { a.Write? && a.subject == o ==> hi <= a.registration.from }

  lemma HistoryStep(s: State, a: Step, s': State, o: string)
    requires Next(s, a, s')
    ensures HistoryOf(s', o) == HistoryOf(s, o) + if a.Write? && a.subject == o then [a.registration] else []
  {}

  lemma WriteKeepsPast(s: State, a: Step, s': State, o: string, t: Time, hi: Time)
    requires Next(s, a, s') && StepNotBefore(a, o, hi) && t < hi
    ensures ViewAt(HistoryOf(s', o), t) == ViewAt(HistoryOf(s, o), t)
  {
    var h := HistoryOf(s, o);
    HistoryStep(s, a, s', o);
    if a.Write? && a.subject == o {
      AppendKeepsView(h, a.registration, t);
    } else {
      assert h + [] == h;
    }
  }

  /** The key is carried to the end of the window, whether or not the scan sees a
      registration that starts at that very instant: it is on one that starts at `t`
      or later and before the end, or on the one current from `t` until the end and
      on the one current at the end. */
  ghost predicate Carried(h: History, key: string, t: Time, hi: Time) {
    StartsBefore(h, key, t, hi) || (Current(h, t) == Current(h, hi - 1) && CurrentHas(h, key, t) && CurrentHas(h, key, hi))
  }

  ghost predicate StartsBefore(h: History, key: string, t: Time, hi: Time) {
    exists k :: 0 <= k < |h| && key in h[k].keys && t <= h[k].from < hi
  }

  ghost predicate CurrentHas(h: History, key: string, t: Time) {
    Current(h, t) >= 0 && key in h[Current(h, t)].keys
  }

  lemma CarriedIsIn(h: History, key: string, t: Time, hi: Time)
    requires Wellformed(h) && t < hi && Carried(h, key, t, hi)
    ensures CarriedIn(h, key, t, hi)
  {
    if k :| 0 <= k < |h| && key in h[k].keys && t <= h[k].from < hi {
      assert Within(h[k].from, t, hi);
    } else {
      CurrentContains(h, hi);
      CurrentContains(h, hi - 1);
      var m := Current(h, hi);
      assert Contains(h, m, hi);
      assert m == Current(h, t) || !Contains(h, m, hi - 1);
      assert m == Current(h, t) || Within(h[m].from, t, hi);
    }
  }

  /** What is carried after a later write was carried before it. */
  lemma AppendKeepsCarried(h: History, r: Registration, key: string, t: Time, hi: Time)
    requires Wellformed(h + [r]) && t < hi <= r.from && Carried(h + [r], key, t, hi)
    ensures Carried(h, key, t, hi)
  {
    var h' := h + [r];
    if StartsBefore(h', key, t, hi) {
      var k :| 0 <= k < |h'| && key in h'[k].keys && t <= h'[k].from < hi;
      assert h[k] == h'[k];
    } else {
      AppendKeepsCurrent(h, r, key, t);
      AppendKeepsCurrent(h, r, key, hi - 1);
      if r.from == hi {
        assert h[|h| - 1] == h'[|h| - 1];
        LastIsCurrent(h, hi);
      } else {
        AppendKeepsCurrent(h, r, key, hi);
      }
    }
  }

  lemma AppendKeepsCurrent(h: History, r: Registration, key: string, t: Time)
    requires t < r.from
    ensures Current(h + [r], t) == Current(h, t) && (CurrentHas(h + [r], key, t) <==> CurrentHas(h, key, t))
  {
    assert (h + [r])[..|h|] == h;
  }

  lemma LastIsCurrent(h: History, t: Time)
    requires h != [] && h[|h| - 1].from < t
    ensures Current(h, t) == |h| - 1 == Current(h, t - 1)
  {}

  lemma StepKeepsCarried(s: State, a: Step, s': State, o: string, key: string, t: Time, hi: Time)
    requires Next(s, a, s') && StepNotBefore(a, o, hi) && t < hi
    requires Carried(HistoryOf(s', o), key, t, hi)
    ensures Carried(HistoryOf(s, o), key, t, hi)
  {
    HistoryStep(s, a, s', o);
    if a.Write? && a.subject == o {
      AppendKeepsCarried(HistoryOf(s, o), a.registration, key, t, hi);
    } else {
      assert HistoryOf(s, o) + [] == HistoryOf(s, o);
    }
  }

  /** Writes that start at `hi` or later leave what was there before `hi` as it was. */
  lemma {:induction false} RunKeepsPast(r: Run, i: nat, n: nat, o: string, t: Time, hi: Time)
    requires IsRun(r) && i <= n <= |r.steps| && NotBefore(r, i, n, o, hi) && t < hi
    ensures ViewAt(HistoryOf(r.states[n], o), t) == ViewAt(HistoryOf(r.states[i], o), t)
  {
    if i < n {
      RunKeepsPast(r, i, n - 1, o, t, hi);
      RunStep(r, n - 1);
      WriteKeepsPast(r.states[n - 1], r.steps[n - 1], r.states[n], o, t, hi);
    }
  }

  lemma {:induction false} RunKeepsCarried(r: Run, i: nat, n: nat, o: string, key: string, t: Time, hi: Time)
    requires IsRun(r) && i <= n <= |r.steps| && NotBefore(r, i, n, o, hi) && t < hi
    requires Carried(HistoryOf(r.states[n], o), key, t, hi)
    ensures Carried(HistoryOf(r.states[i], o), key, t, hi)
  {
    if i < n {
      RunStep(r, n - 1);
      StepKeepsCarried(r.states[n - 1], r.steps[n - 1], r.states[n], o, key, t, hi);
      RunKeepsCarried(r, i, n - 1, o, key, t, hi);
    }
  }

  // ---- What a scan found covers the changes of its window -----------------------

  /** What a scan found, for the store as it was then: under each key exactly the
      objects with a change in the window for which the key is carried. */
  lemma FoundExactly(r: Run, b: nat, c: nat, key: string, o: string)
    requires IsRun(r) && c <= |r.steps| && ScanOf(r, b, c)
    ensures (key, o) in r.states[c].run.found <==>
      exists t :: && Within(t, r.states[c].run.lo, r.states[c].run.hi) && Changed(HistoryOf(r.states[b], o), t)
                  && CarriedIn(HistoryOf(r.states[b], o), key, t, r.states[c].run.hi)
  {
    RunKeepsInv(r, b, b);
    RunStep(r, b);
    SameScanKeeps(r, b, c);
    var s := r.states[b];
    InQuery(s.store, s.run.lo, s.run.hi, key, o);
    EmittedIffCarried(HistoryOf(s, o), key, s.run.lo, s.run.hi);
  }

  /** In the light of the history at step `n`: as long as no write made since the scan
      starts before the end of its window, the scan found what it should. */
  lemma RunCovers(r: Run, b: nat, c: nat, n: nat, o: string, key: string, t: Time)
    requires IsRun(r) && c <= n <= |r.steps| && ScanOf(r, b, c)
    requires NotBefore(r, b + 1, n, o, r.states[c].run.hi)
    requires r.states[c].run.lo <= t < r.states[c].run.hi
    requires Changed(HistoryOf(r.states[n], o), t) && Carried(HistoryOf(r.states[n], o), key, t, r.states[c].run.hi)
    ensures (key, o) in r.states[c].run.found
  {
    var hi := r.states[c].run.hi;
    ScanSeesPast(r, b, n, o, t, hi);
    ScanSeesPast(r, b, n, o, t - 1, hi);
    RunKeepsCarried(r, b + 1, n, o, key, t, hi);
    ScanKeepsStore(r, b);
    RunKeepsInv(r, b, b);
    CarriedIsIn(HistoryOf(r.states[b], o), key, t, hi);
    FoundExactly(r, b, c, key, o);
  }

  lemma ScanKeepsStore(r: Run, b: nat)
    requires IsRun(r) && b < |r.steps| && r.steps[b].Scan?
    ensures r.states[b + 1].store == r.states[b].store
  {
    RunStep(r, b);
  }

  lemma ScanSeesPast(r: Run, b: nat, n: nat, o: string, t: Time, hi: Time)
    requires IsRun(r) && b < n <= |r.steps| && r.steps[b].Scan? && NotBefore(r, b + 1, n, o, hi) && t < hi
    ensures ViewAt(HistoryOf(r.states[b], o), t) == ViewAt(HistoryOf(r.states[n], o), t)
  {
    ScanKeepsStore(r, b);
    RunKeepsPast(r, b + 1, n, o, t, hi);
  }

  /** No missed change: every change at or after the initial last run and before the
      present one lies in the window of the first successful run whose `now` is past
      it, and that run found it under each key carried to the end of that window,
      unless a write of the object was made after the scan that starts before the end
      of the window. Other writes, early or late, do not matter. */
  lemma NoMissedChange(r: Run, n: nat, o: string, t: Time) returns (b: nat, c: nat)
    requires IsRun(r) && n <= |r.steps|
    requires r.states[0].lastRun <= t < r.states[n].lastRun && Changed(HistoryOf(r.states[n], o), t)
    ensures c < n && Reaches(r, c, t) && ScanOf(r, b, c)
    ensures forall d :: 0 <= d < c && r.steps[d].Commit? ==> r.states[d].run.Scanned? && r.states[d].run.hi <= t
    ensures NotBefore(r, b + 1, n, o, r.states[c].run.hi) ==>
      forall key :: Carried(HistoryOf(r.states[n], o), key, t, r.states[c].run.hi) ==> (key, o) in r.states[c].run.found
  {
    c := WindowsAdjoin(r, 0, n, t);
    b := FindScan(r, c);
    if NotBefore(r, b + 1, n, o, r.states[c].run.hi) {
      forall key | Carried(HistoryOf(r.states[n], o), key, t, r.states[c].run.hi)
        ensures (key, o) in r.states[c].run.found
      {
        RunCovers(r, b, c, n, o, key, t);
      }
    }
  }

  // ---- What a run emits ------------------------------------------------------

  /** In the run being emitted at `c`, step `e` added the event for the key and object. */
  ghost predicate EmittedAt(r: Run, e: nat, c: nat, key: string, o: string) {
    e < c && c < |r.states| && e < |r.steps| && r.steps[e] == Emit(key, o) && SameScan(r, e, c)
  }

  lemma EmittedMore(r: Run, e: nat, c: nat, key: string, o: string)
    requires IsRun(r) && c < |r.steps| && r.states[c + 1].run.Scanned? && EmittedAt(r, e, c, key, o)
    ensures EmittedAt(r, e, c + 1, key, o)
  {}

  lemma {:induction false} DoneWasEmitted(r: Run, c: nat, key: string, o: string) returns (e: nat)
    requires IsRun(r) && c <= |r.steps| && r.states[c].run.Scanned? && (key, o) in r.states[c].run.done
    ensures EmittedAt(r, e, c, key, o)
  {
    assert c > 0;
    RunStep(r, c - 1);
    if r.steps[c - 1] == Emit(key, o) {
      e := c - 1;
    } else {
      e := DoneWasEmitted(r, c - 1, key, o);
      EmittedMore(r, e, c - 1, key, o);
    }
  }

  /** The listener exists before step `i` and listens for the key. */
  ghost predicate ListensAt(r: Run, i: nat, l: Uuid, key: string) {
    && i < |r.states| && l in r.states[i].t.listeners
    && r.states[i].t.listeners[l].namespace == "mo" && r.states[i].t.listeners[l].routingKey == key
  }

  lemma EmittedSlots(t: Tables, key: string, o: string, l: Uuid)
    ensures Slot(l, o) in SlotsEmitted(t, key, o)
       <==> l in t.listeners && t.listeners[l].namespace == "mo" && t.listeners[l].routingKey == key
  {
    SlotIsFor(Addressees(t, "mo", key, None, None), {o}, l, o);
  }

  lemma {:induction false} EmittedIsSent(r: Run, e: nat, c: nat, key: string, o: string, l: Uuid)
    requires IsRun(r) && c <= |r.steps| && EmittedAt(r, e, c, key, o) && ListensAt(r, e, l, key)
    ensures r.states[c].run.Scanned? && Slot(l, o) in r.states[c].run.sent
  {
    RunStep(r, c - 1);
    if e == c - 1 {
      EmittedSlots(r.states[e].t, key, o, l);
    } else {
      EmittedIsSent(r, e, c - 1, key, o, l);
    }
  }

  lemma {:induction false} SentWasEmitted(r: Run, c: nat, o: string, l: Uuid) returns (e: nat, key: string)
    requires IsRun(r) && c <= |r.steps| && r.states[c].run.Scanned? && Slot(l, o) in r.states[c].run.sent
    ensures EmittedAt(r, e, c, key, o) && ListensAt(r, e, l, key)
  {
    assert c > 0;
    RunStep(r, c - 1);
    var s, a := r.states[c - 1], r.steps[c - 1];
    if s.run.Scanned? && Slot(l, o) in s.run.sent {
      e, key := SentWasEmitted(r, c - 1, o, l);
      EmittedMore(r, e, c - 1, key, o);
    } else {
      assert a.Emit? && Slot(l, o) in SlotsEmitted(s.t, a.key, a.subject);
      e, key := c - 1, a.key;
      EmittedSlots(s.t, key, o, l);
    }
  }

  /** Which listeners a committed run sends an object's event to: those that existed,
      listening for the key, when the event was added, and still exist. A listener
      declared between that moment and the commit gets nothing. */
  lemma SentExactly(r: Run, c: nat, o: string, l: Uuid)
    requires IsRun(r) && c < |r.steps| && r.steps[c].Commit? && r.states[c].run.Scanned?
    ensures Slot(l, o) in SlotsSent(r.states[c], r.steps[c]) <==>
      && l in r.states[c].t.listeners
      && exists e, key :: EmittedAt(r, e, c, key, o) && ListensAt(r, e, l, key)
  {
    if Slot(l, o) in SlotsSent(r.states[c], r.steps[c]) {
      var e, key := SentWasEmitted(r, c, o, l);
    }
    if e, key :| EmittedAt(r, e, c, key, o) && ListensAt(r, e, l, key) {
      EmittedIsSent(r, e, c, key, o, l);
    }
  }

  // ---- End to end ----------------------------------------------------------

  lemma {:induction false} ListenedBefore(r: Run, b: nat, e: nat, c: nat, l: Uuid, key: string)
    requires IsRun(r) && b <= e <= c <= |r.steps| && ListensAt(r, b, l, key) && ListensAt(r, c, l, key)
    ensures ListensAt(r, e, l, key)
    decreases c
  {
    if e < c {
      ListenerStaysAt(r, b, c - 1, l);
      ListenedBefore(r, b, e, c - 1, l, key);
    }
  }

  /** Whatever a committed run found is owed to every listener for the key that
      existed when the run scanned and still does when it commits. */
  lemma FoundIsDelivered(r: Run, b: nat, c: nat, n: nat, o: string, key: string, l: Uuid)
    requires IsRun(r) && c < n <= |r.steps| && r.steps[c].Commit? && ScanOf(r, b, c)
    requires (key, o) in r.states[c].run.found && ListensAt(r, b, l, key) && ListensAt(r, c, l, key)
    ensures Accounted(r, c, n, Slot(l, o))
  {
    RunStep(r, c);
    var e := DoneWasEmitted(r, c, key, o);
    EmittedAfterScan(r, b, e, c, key, o);
    ListenedBefore(r, b, e, c, l, key);
    SentExactly(r, c, o, l);
    NoLostEvent(r, c, n, Slot(l, o));
  }

  lemma EmittedAfterScan(r: Run, b: nat, e: nat, c: nat, key: string, o: string)
    requires IsRun(r) && c < |r.steps| && ScanOf(r, b, c) && EmittedAt(r, e, c, key, o)
    ensures b < e
  {
    RunStep(r, b);
    assert b <= e;
  }

  /** End to end: with the same proviso, for each key carried to the end of the window,
      every listener for the key that existed when that run scanned and when it
      committed has an event for the object pending, or had one fetched after the
      commit and acknowledged, or was deleted together with its events. */
  lemma EndToEnd(r: Run, n: nat, o: string, t: Time) returns (b: nat, c: nat)
    requires IsRun(r) && n <= |r.steps|
    requires r.states[0].lastRun <= t < r.states[n].lastRun && Changed(HistoryOf(r.states[n], o), t)
    ensures c < n && Reaches(r, c, t) && ScanOf(r, b, c)
    ensures forall d :: 0 <= d < c && r.steps[d].Commit? ==> r.states[d].run.Scanned? && r.states[d].run.hi <= t
    ensures NotBefore(r, b + 1, n, o, r.states[c].run.hi) ==> Delivered(r, b, c, n, o, t)
  {
    b, c := NoMissedChange(r, n, o, t);
    if NotBefore(r, b + 1, n, o, r.states[c].run.hi) {
      forall key, l | Carried(HistoryOf(r.states[n], o), key, t, r.states[c].run.hi)
        && ListensAt(r, b, l, key) && ListensAt(r, c, l, key)
        ensures Accounted(r, c, n, Slot(l, o))
      {
        FoundIsDelivered(r, b, c, n, o, key, l);
      }
    }
  }

  /** The change at `t` has reached, or is owed to, every listener that it concerns. */
  ghost predicate Delivered(r: Run, b: nat, c: nat, n: nat, o: string, t: Time)
    requires |r.states| == |r.steps| + 1 && n <= |r.steps| && c <= |r.steps| && r.states[c].run.Scanned?
  {
    forall key, l | Carried(HistoryOf(r.states[n], o), key, t, r.states[c].run.hi) && ListensAt(r, b, l, key) ::
      ListensAt(r, c, l, key) ==> Accounted(r, c, n, Slot(l, o))
  }

  /** A failed run changes neither the tables nor the last run's time, so the next
      run starts its window where the failed one did. */
  lemma FailedRunIsRetried(s: State, s': State, now: Time, s'': State)
    requires Inv(s) && Next(s, Fail, s') && Next(s', Begin(now), s'')
    ensures s'.t == s.t && s'.store == s.store && s''.run.lo == s.run.lo
  {}

  // ---- Writes that commit late -----------------------------------------------

  /** The scan being emitted at the write commits before step `n`. */
  ghost predicate PendingCommits(r: Run, m: nat, n: nat)
    requires |r.states| == |r.steps| + 1 && n <= |r.steps|
  {
    exists c :: m < c < n && r.steps[c].Commit? && SameScan(r, m, c)
  }

  /** The start of the first window that is scanned after the write at step `m` and
      may be committed before step `n`: the end of the pending scan's window if there
      is one and it commits, else the last run. */
  ghost function NextLo(r: Run, m: nat, n: nat): Time
    requires |r.states| == |r.steps| + 1 && m < n <= |r.steps|
  {
    if r.states[m].run.Scanned? && PendingCommits(r, m, n) then r.states[m].run.hi else r.states[m].lastRun
  }

  /** The run committed at `c` scanned, after the write at `m`, a window that the
      write's registration starts in. */
  ghost predicate ScannedAfter(r: Run, m: nat, c: nat) {
    && m < c < |r.steps| && c < |r.states|
    && r.steps[m].Write? && r.steps[c].Commit? && r.states[c].run.Scanned?
    && Within(r.steps[m].registration.from, r.states[c].run.lo, r.states[c].run.hi)
    && exists b :: m < b && ScanOf(r, b, c)
  }

  /** The first state from `i` on, up to `n`, in which no scan is being emitted. */
  lemma {:induction false} Settled(r: Run, m: nat, i: nat, n: nat) returns (j: nat)
    requires m < i <= n < |r.states| && forall k :: m < k < i ==> r.states[k].run.Scanned?
    ensures i <= j <= n && (j < n ==> !r.states[j].run.Scanned?)
    ensures forall k :: m < k < j ==> r.states[k].run.Scanned?
    decreases n - i
  {
    j := i;
    if i < n && r.states[i].run.Scanned? {
      j := Settled(r, m, i + 1, n);
    }
  }

  lemma {:induction false} LastRunKept(r: Run, i: nat, j: nat)
    requires IsRun(r) && i <= j <= |r.steps| && forall k :: i <= k < j ==> !r.steps[k].Commit?
    ensures r.states[j].lastRun == r.states[i].lastRun
  {
    if i < j {
      LastRunKept(r, i, j - 1);
      RunStep(r, j - 1);
      LastRunStep(r.states[j - 1], r.steps[j - 1], r.states[j]);
    }
  }

  lemma SameScanNoCommit(r: Run, m: nat, c: nat, k: nat)
    requires IsRun(r) && SameScan(r, m, c) && m <= k < c
    ensures !r.steps[k].Commit?
  {
    RunStep(r, k);
    assert r.states[k + 1].run.Scanned?;
  }

  /** Once settled, the last run is the start of the next window. */
  lemma SettledIsNextLo(r: Run, m: nat, j: nat, n: nat)
    requires IsRun(r) && m < j <= n <= |r.steps| && r.steps[m].Write? && (j < n ==> !r.states[j].run.Scanned?)
    requires forall k :: m < k < j ==> r.states[k].run.Scanned?
    ensures r.states[j].lastRun == NextLo(r, m, n)
  {
    RunStep(r, m);
    RunStep(r, j - 1);
    LastRunStep(r.states[j - 1], r.steps[j - 1], r.states[j]);
    if j > m + 1 {
      assert SameScan(r, m, j - 1);
      SameScanKeeps(r, m, j - 1);
      forall k | m <= k < j - 1
        ensures !r.steps[k].Commit?
      {
        SameScanNoCommit(r, m, j - 1, k);
      }
      LastRunKept(r, m, j - 1);
    }
    CommitSettles(r, m, j, n);
  }

  lemma CommitSettles(r: Run, m: nat, j: nat, n: nat)
    requires IsRun(r) && m < j <= n <= |r.steps| && (j < n ==> !r.states[j].run.Scanned?)
    requires forall k :: m < k < j ==> r.states[k].run.Scanned?
    ensures forall c :: m < c < n && r.steps[c].Commit? && SameScan(r, m, c) ==> j == c + 1
  {
    forall c: nat | m < c < n && r.steps[c].Commit? && SameScan(r, m, c)
      ensures j == c + 1
    {
      RunStep(r, c);
      assert c < j;
      assert !r.states[c + 1].run.Scanned?;
    }
  }

  /** A registration's start is the database's clock while its transaction is still
      open. When a later run's time has passed the start, a run that scanned after
      the write and committed had it in its window exactly if it is not before the
      start of the next window: the last run's time if no scan was pending at the
      write, or if that one fails; the end of the pending scan's window if that commits. */
  lemma LateWriteWindowed(r: Run, m: nat, n: nat)
    requires IsRun(r) && m < n <= |r.steps| && r.steps[m].Write?
    requires r.steps[m].registration.from < r.states[n].lastRun
    ensures (exists c :: m < c < n && ScannedAfter(r, m, c)) <==> NextLo(r, m, n) <= r.steps[m].registration.from
  {
    var t := r.steps[m].registration.from;
    var i := Settled(r, m, m + 1, n);
    SettledIsNextLo(r, m, i, n);
    if r.states[i].lastRun <= t {
      var c := WindowsAdjoin(r, i, n, t);
      var b := FindScan(r, c);
      assert b != m;
      assert ScanOf(r, b, c) && m < b;
      assert ScannedAfter(r, m, c);
    }
    if c :| m < c < n && ScannedAfter(r, m, c) {
      var b :| m < b && ScanOf(r, b, c);
      RunStep(r, b);
      assert i <= b;
      RunKeepsInv(r, i, c);
    }
  }

  lemma {:induction false} HistoryGrows(r: Run, i: nat, j: nat, o: string)
    requires IsRun(r) && i <= j <= |r.steps|
    ensures HistoryOf(r.states[i], o) <= HistoryOf(r.states[j], o)
  {
    if i < j {
      HistoryGrows(r, i, j - 1, o);
      RunStep(r, j - 1);
      HistoryStep(r.states[j - 1], r.steps[j - 1], r.states[j], o);
    }
  }

  lemma HistoryHas(r: Run, m: nat, i: nat)
    requires IsRun(r) && m < i <= |r.steps| && r.steps[m].Write?
    ensures r.steps[m].registration in HistoryOf(r.states[i], r.steps[m].subject)
  {
    var o, w := r.steps[m].subject, r.steps[m].registration;
    RunStep(r, m);
    HistoryStep(r.states[m], r.steps[m], r.states[m + 1], o);
    HistoryGrows(r, m + 1, i, o);
    assert HistoryOf(r.states[i], o)[|HistoryOf(r.states[m], o)|] == w;
  }

  /** And such a run found the object under every key of the registration. */
  lemma LateWriteFound(r: Run, m: nat, c: nat, key: string)
    requires IsRun(r) && ScannedAfter(r, m, c) && key in r.steps[m].registration.keys
    ensures (key, r.steps[m].subject) in r.states[c].run.found
  {
    var b :| m < b && ScanOf(r, b, c);
    var s, o := r.states[b], r.steps[m].subject;
    RunStep(r, b);
    SameScanKeeps(r, b, c);
    HistoryHas(r, m, b);
    var k: nat :| k < |HistoryOf(s, o)| && HistoryOf(s, o)[k] == r.steps[m].registration;
    assert Starts(HistoryOf(s, o), key, s.run.lo, s.run.hi);
    InQuery(s.store, s.run.lo, s.run.hi, key, o);
  }

  // ---- When every change is seen ----------------------------------------------

  /** No write of the object before step `n` starts before the next window does. */
  ghost predicate OnTime(r: Run, n: nat, o: string)
    requires |r.states| == |r.steps| + 1 && n <= |r.steps|
  {
    forall m: nat | m < n && r.steps[m].Write? && r.steps[m].subject == o ::
      r.steps[m].registration.from < r.states[n].lastRun ==> NextLo(r, m, n) <= r.steps[m].registration.from
  }

  /** Writes that are prompt are on time: they start no earlier than the latest `now`
      that any emitter run has read. */
  lemma PromptIsOnTime(r: Run, n: nat, o: string)
    requires IsRun(r) && n <= |r.steps|
    requires forall m: nat :: m < n && r.steps[m].Write? && r.steps[m].subject == o ==>
      r.states[m].lastRead <= r.steps[m].registration.from
    ensures OnTime(r, n, o)
  {
    forall m: nat | m < n && r.steps[m].Write? && r.steps[m].subject == o
      ensures NextLo(r, m, n) <= r.steps[m].registration.from
    {
      RunKeepsInv(r, m, m);
    }
  }

  /** For a write made after the scan of a window, the next window starts at the end of
      that one or later. */
  lemma NextLoAfterScan(r: Run, b: nat, c: nat, m: nat, n: nat)
    requires IsRun(r) && c < n <= |r.steps| && r.steps[c].Commit? && ScanOf(r, b, c)
    requires b < m < n && r.steps[m].Write?
    ensures r.states[c].run.hi <= NextLo(r, m, n)
  {
    SameScanKeeps(r, b, c);
    RunKeepsInv(r, m, m);
    if m < c {
      assert SameScan(r, m, c);
      assert PendingCommits(r, m, n);
    } else {
      RunStep(r, c);
      LastRunStep(r.states[c], r.steps[c], r.states[c + 1]);
      RunKeepsInv(r, c + 1, m);
    }
  }

  lemma OnTimeIsNotBefore(r: Run, b: nat, c: nat, n: nat, o: string)
    requires IsRun(r) && c < n <= |r.steps| && r.steps[c].Commit? && ScanOf(r, b, c) && OnTime(r, n, o)
    ensures NotBefore(r, b + 1, n, o, r.states[c].run.hi)
  {
    RunStep(r, c);
    LastRunStep(r.states[c], r.steps[c], r.states[c + 1]);
    RunKeepsInv(r, c + 1, n);
    forall m: nat | b < m < n && r.steps[m].Write? && r.steps[m].subject == o
      ensures r.states[c].run.hi <= r.steps[m].registration.from
    {
      NextLoAfterScan(r, b, c, m, n);
    }
  }

  /** If the object's writes are on time, every change of it is found, */
  lemma OnTimeNoneMissed(r: Run, n: nat, o: string, t: Time) returns (b: nat, c: nat)
    requires IsRun(r) && n <= |r.steps| && OnTime(r, n, o)
    requires r.states[0].lastRun <= t < r.states[n].lastRun && Changed(HistoryOf(r.states[n], o), t)
    ensures c < n && Reaches(r, c, t) && ScanOf(r, b, c)
    ensures forall key :: Carried(HistoryOf(r.states[n], o), key, t, r.states[c].run.hi) ==> (key, o) in r.states[c].run.found
  {
    b, c := NoMissedChange(r, n, o, t);
    OnTimeIsNotBefore(r, b, c, n, o);
  }

  /** and delivered. */
  lemma OnTimeEndToEnd(r: Run, n: nat, o: string, t: Time) returns (b: nat, c: nat)
    requires IsRun(r) && n <= |r.steps| && OnTime(r, n, o)
    requires r.states[0].lastRun <= t < r.states[n].lastRun && Changed(HistoryOf(r.states[n], o), t)
    ensures c < n && Reaches(r, c, t) && ScanOf(r, b, c) && Delivered(r, b, c, n, o, t)
  {
    b, c := EndToEnd(r, n, o, t);
    OnTimeIsNotBefore(r, b, c, n, o);
  }

  /** A run committed before step `n` has the change at `t` in its window, and its scan
      saw it: around `t` the object looked to it as it does at step `n`. */
  ghost predicate SeenBy(r: Run, b: nat, c: nat, n: nat, o: string, t: Time) {
    && b < c < n < |r.states| && n <= |r.steps| && r.steps[c].Commit? && ScanOf(r, b, c)
    && Within(t, r.states[c].run.lo, r.states[c].run.hi)
    && ViewAt(HistoryOf(r.states[b], o), t) == ViewAt(HistoryOf(r.states[n], o), t)
    && ViewAt(HistoryOf(r.states[b], o), t - 1) == ViewAt(HistoryOf(r.states[n], o), t - 1)
  }

  /** What was seen is announced under each key carried at the scan. */
  lemma SeenIsFound(r: Run, b: nat, c: nat, n: nat, o: string, key: string, t: Time)
    requires IsRun(r) && SeenBy(r, b, c, n, o, t) && Changed(HistoryOf(r.states[n], o), t)
    requires CarriedIn(HistoryOf(r.states[b], o), key, t, r.states[c].run.hi)
    ensures (key, o) in r.states[c].run.found
  {
    FoundExactly(r, b, c, key, o);
  }

  /** The instant is past for the emitter, and it is either not before the initial last
      run or the start of a registration written since. */
  ghost predicate Due(r: Run, n: nat, o: string, t: Time)
    requires |r.states| == |r.steps| + 1 && n <= |r.steps|
  {
    && t < r.states[n].lastRun
    && (r.states[0].lastRun <= t
        || exists m: nat :: m < n && r.steps[m].Write? && r.steps[m].subject == o && r.steps[m].registration.from == t)
  }

  lemma DueIsSeen(r: Run, n: nat, o: string, t: Time) returns (b: nat, c: nat)
    requires IsRun(r) && n <= |r.steps| && OnTime(r, n, o)
    requires Due(r, n, o, t) && Changed(HistoryOf(r.states[n], o), t)
    ensures SeenBy(r, b, c, n, o, t)
  {
    if t < r.states[0].lastRun {
      var m: nat :| m < n && r.steps[m].Write? && r.steps[m].subject == o && r.steps[m].registration.from == t;
      RunKeepsInv(r, m, m);
      RunKeepsInv(r, 0, m);
    }
    b, c := NoMissedChange(r, n, o, t);
    OnTimeIsNotBefore(r, b, c, n, o);
    var hi := r.states[c].run.hi;
    ScanSeesPast(r, b, n, o, t, hi);
    ScanSeesPast(r, b, n, o, t - 1, hi);
  }

  lemma WriteIsCurrent(r: Run, m: nat, n: nat)
    requires IsRun(r) && m < n <= |r.steps| && r.steps[m].Write?
    ensures var o, t := r.steps[m].subject, r.steps[m].registration.from;
            Changed(HistoryOf(r.states[n], o), t) && Current(HistoryOf(r.states[n], o), t) == |HistoryOf(r.states[m], o)|
  {
    var o := r.steps[m].subject;
    RunStep(r, m);
    RunKeepsInv(r, n, n);
    HistoryStep(r.states[m], r.steps[m], r.states[m + 1], o);
    HistoryGrows(r, m + 1, n, o);
    StartIsChange(HistoryOf(r.states[n], o), |HistoryOf(r.states[m], o)|);
  }

  lemma SeenWriteIsOnTime(r: Run, m: nat, b: nat, c: nat, n: nat)
    requires IsRun(r) && m < n <= |r.steps| && r.steps[m].Write? && r.steps[m].registration.from < r.states[n].lastRun
    requires SeenBy(r, b, c, n, r.steps[m].subject, r.steps[m].registration.from)
    ensures NextLo(r, m, n) <= r.steps[m].registration.from
  {
    var o, t := r.steps[m].subject, r.steps[m].registration.from;
    WriteIsCurrent(r, m, n);
    assert |HistoryOf(r.states[b], o)| > |HistoryOf(r.states[m], o)|;
    if b <= m {
      HistoryGrows(r, b, m, o);
    }
    assert ScannedAfter(r, m, c);
    LateWriteWindowed(r, m, n);
  }

  /** The exact condition for no change of an object to be missed: every change that is
      due was seen by a run with it in its window if and only if no write of the object
      that is past for the emitter started before the next window. */
  lemma EveryChangeSeenIff(r: Run, n: nat, o: string)
    requires IsRun(r) && n <= |r.steps|
    ensures OnTime(r, n, o) <==>
      forall t :: Due(r, n, o, t) && Changed(HistoryOf(r.states[n], o), t) ==> exists b, c :: SeenBy(r, b, c, n, o, t)
  {
    if OnTime(r, n, o) {
      forall t | Due(r, n, o, t) && Changed(HistoryOf(r.states[n], o), t)
        ensures exists b, c :: SeenBy(r, b, c, n, o, t)
      {
        var b, c := DueIsSeen(r, n, o, t);
      }
    } else {
      var m: nat :| && m < n && r.steps[m].Write? && r.steps[m].subject == o
                    && r.steps[m].registration.from < r.states[n].lastRun
                    && r.steps[m].registration.from < NextLo(r, m, n);
      var t := r.steps[m].registration.from;
      WriteIsCurrent(r, m, n);
      assert Due(r, n, o, t);
      if b, c :| SeenBy(r, b, c, n, o, t) {
        SeenWriteIsOnTime(r, m, b, c, n);
        assert false;
      }
    }
  }

  // ---- A listener that comes too late -------------------------------------------

  /** A run that emits one change before a listener for it is declared, and commits
      afterwards. */
  ghost function LateListenerRun(): Run {
    var t := Tables(map["mo" := Namespace(7, true)], map[], map[], 0);
    var late := Tables(map["mo" := Namespace(7, true)], map[0 := Listener("key", 7, "person", "mo")], map[], 1);
    var found := {("person", "o")};
    var idle := State(t, {}, map["o" := [LateRegistration()]], 0, 10, Idle);
    Run([idle.(lastRead := 0),
         idle.(run := Begun(0, 10)),
         idle.(run := Scanned(0, 10, found, {}, {})),
         idle.(run := Scanned(0, 10, found, found, {})),
         idle.(run := Scanned(0, 10, found, found, {}), t := late),
         idle.(lastRun := 10, t := late)],
        [Begin(10), Scan, Emit("person", "o"), ListenerDeclare(7, "mo", "key", "person"), Commit])
  }

  lemma LateListenerScan()
    ensures Query(map["o" := [LateRegistration()]], 0, 10) == {("person", "o")}
  {
    var store := map["o" := [LateRegistration()]];
    assert Starts(store["o"], "person", 0, 10) by { assert Within(store["o"][0].from, 0, 10); }
    InQuery(store, 0, 10, "person", "o");
    forall f | f in Query(store, 0, 10)
      ensures f == ("person", "o")
    {
      InQuery(store, 0, 10, f.0, f.1);
    }
  }

  lemma LateListenerSteps()
    ensures var r := LateListenerRun(); StepAt(r, 0) && StepAt(r, 1) && StepAt(r, 2)
  {
    var r := LateListenerRun();
    LateListenerScan();
    assert SlotsEmitted(r.states[2].t, "person", "o") == {};
    assert r.states[2].run.done + {("person", "o")} == r.states[3].run.done;
    assert r.states[2].run.sent + SlotsEmitted(r.states[2].t, "person", "o") == r.states[3].run.sent;
  }

  lemma LateListenerLastSteps()
    ensures var r := LateListenerRun(); StepAt(r, 3) && StepAt(r, 4)
  {
    var r := LateListenerRun();
    assert FindListener(r.states[3].t, "key", 7, "mo").None?;
    assert SlotsSent(r.states[4], Commit) == {};
    DeliversNothing(r.states[4].t, DEFAULT_PRIORITY);
  }

  /** The listener exists when the run with the change in its window commits, has no
      event, and no later window reaches back to the change. */
  lemma LateListenerMissed()
    ensures var r := LateListenerRun();
            && IsRun(r) && Reaches(r, 4, 5) && Changed(HistoryOf(r.states[5], "o"), 5)
            && ("person", "o") in r.states[4].run.found && ListensAt(r, 4, 0, "person")
            && !Pending(r.states[5].t, Slot(0, "o")) && 5 < r.states[5].lastRun
  {
    LateListenerSteps();
    LateListenerLastSteps();
    StartIsChange([LateRegistration()], 0);
  }

  // ---- A late write that is missed ----------------------------------------------

  function LateRegistration(): Registration { Registration(5, false, {"person"}, []) }

  /** A run with one write whose registration starts at 5 and that commits after a
      run with `now` 10: the next run, up to 20, finds nothing either. */
  ghost function LateWriteRun(t: Tables): Run {
    var idle := State(t, {}, map[], 0, 0, Idle);
    var late := map["o" := [LateRegistration()]];
    Run([idle,
         idle.(run := Begun(0, 10), lastRead := 10),
         idle.(run := Scanned(0, 10, {}, {}, {}), lastRead := 10),
         idle.(lastRun := 10, lastRead := 10),
         idle.(lastRun := 10, lastRead := 10, store := late),
         idle.(lastRun := 10, lastRead := 20, store := late, run := Begun(10, 20)),
         idle.(lastRun := 10, lastRead := 20, store := late, run := Scanned(10, 20, {}, {}, {})),
         idle.(lastRun := 20, lastRead := 20, store := late)],
        [Begin(10), Scan, Commit, Write("o", LateRegistration()), Begin(20), Scan, Commit])
  }

  lemma LateWriteFirstRun(t: Tables)
    requires Sound(t) && t.events == map[]
    ensures var r := LateWriteRun(t); Initial(r.states[0]) && StepAt(r, 0) && StepAt(r, 1) && StepAt(r, 2)
  {
    assert Query(map[], 0, 10) == {};
    DeliversNothing(t, DEFAULT_PRIORITY);
    assert SlotsSent(LateWriteRun(t).states[2], Commit) == {};
  }

  lemma LateWriteUnseen()
    ensures Query(map["o" := [LateRegistration()]], 10, 20) == {}
  {
    assert !Emits([LateRegistration()], "person", 10, 20);
  }

  lemma LateWriteStep(t: Tables)
    ensures StepAt(LateWriteRun(t), 3)
  {
    assert [] + [LateRegistration()] == [LateRegistration()];
  }

  lemma LateWriteSecondRun(t: Tables)
    ensures var r := LateWriteRun(t); StepAt(r, 4) && StepAt(r, 5) && StepAt(r, 6)
  {
    LateWriteUnseen();
    DeliversNothing(t, DEFAULT_PRIORITY);
    assert SlotsSent(LateWriteRun(t).states[6], Commit) == {};
  }

  /** So a change by a write that is not on time can be missed. */
  lemma LateWriteMissed(t: Tables)
    requires Sound(t) && t.events == map[]
    ensures var r := LateWriteRun(t);
            && IsRun(r) && !OnTime(r, 7, "o")
            && r.states[0].lastRun <= 5 < r.states[7].lastRun
            && Changed(HistoryOf(r.states[7], "o"), 5)
            && (forall hi :: 5 < hi ==> Carried(HistoryOf(r.states[7], "o"), "person", 5, hi))
            && forall c :: 0 <= c < 7 && r.steps[c].Commit? ==> ("person", "o") !in r.states[c].run.found
  {
    var r := LateWriteRun(t);
    LateWriteFirstRun(t);
    LateWriteStep(t);
    LateWriteSecondRun(t);
    assert NextLo(r, 3, 7) == 10;
    StartIsChange([LateRegistration()], 0);
  }
}
