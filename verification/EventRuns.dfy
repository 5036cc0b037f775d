/** What holds over whole runs of the event system. */
module EventRuns {
  import opened Prelude
  import opened EventTables
  import opened EventSystem

  // ---- The registry ------------------------------------------------------

  lemma ListenerStays(s: State, a: Step, s': State, pk: Uuid)
    requires Next(s, a, s') && pk in s'.t.listeners && pk < s.t.drawn
    ensures pk in s.t.listeners && s'.t.listeners[pk] == s.t.listeners[pk]
  {
    if !a.ListenerDeclare? && !a.ListenerDelete? {
      ListenersKept(s, a, s');
    }
  }

  lemma ListenersKept(s: State, a: Step, s': State)
    requires Next(s, a, s') && !a.ListenerDeclare? && !a.ListenerDelete?
    ensures s'.t.listeners == s.t.listeners
  {}

  lemma ListenerStaysAt(r: Run, i: nat, j: nat, pk: Uuid)
    requires IsRun(r) && i <= j < |r.steps|
    requires pk in r.states[i].t.listeners && pk in r.states[j + 1].t.listeners
    ensures pk in r.states[j].t.listeners && r.states[j + 1].t.listeners[pk] == r.states[j].t.listeners[pk]
  {
    RunDraws(r, i, j);
    RunStep(r, j);
    ListenerStays(r.states[j], r.steps[j], r.states[j + 1], pk);
  }

  /** A listener never changes: while a run knows a primary key, it stands for one
      user key, owner, namespace and routing key. */
  lemma {:induction false} ListenerUnchanging(r: Run, i: nat, j: nat, pk: Uuid)
    requires IsRun(r) && i <= j <= |r.steps|
    requires pk in r.states[i].t.listeners && pk in r.states[j].t.listeners
    ensures r.states[i].t.listeners[pk] == r.states[j].t.listeners[pk]
  {
    if i < j {
      ListenerStaysAt(r, i, j - 1, pk);
      ListenerUnchanging(r, i, j - 1, pk);
    }
  }

  /** What each step can do to a listener: only a deletion that names it and is not
      refused removes it, and only a declaration of just its data creates it. */
  lemma StepListenerFate(s: State, a: Step, s': State, pk: Uuid)
    requires Sound(s.t) && Next(s, a, s')
    ensures pk in s.t.listeners ==>
      (pk !in s'.t.listeners <==>
       a.ListenerDelete? && a.listener == pk && DeleteListener(s.t, a.listener, a.deletePending).1.Ok?)
    ensures pk !in s.t.listeners && pk in s'.t.listeners ==>
      && a.ListenerDeclare?
      && s'.t.listeners[pk] == Listener(a.userKey, a.caller, a.routingKey, a.namespace)
      && FindListener(s.t, a.userKey, a.caller, a.namespace).None?
  {}

  /** The same for namespaces, whose owner and visibility never change. */
  lemma StepNamespaceFate(s: State, a: Step, s': State, name: string)
    requires Next(s, a, s')
    ensures name in s.t.namespaces ==>
      if name in s'.t.namespaces then s'.t.namespaces[name] == s.t.namespaces[name]
      else a == NamespaceDelete(name) && forall pk :: pk in s.t.listeners ==> s.t.listeners[pk].namespace != name
    ensures name !in s.t.namespaces && name in s'.t.namespaces ==>
      a.NamespaceDeclare? && a.name == name && s'.t.namespaces[name] == Namespace(a.caller, a.isPublic)
  {}

  /** A listener lives until a deletion that names it. */
  lemma {:induction false} ListenerLives(r: Run, i: nat, n: nat, pk: Uuid)
    requires IsRun(r) && i <= n <= |r.steps| && pk in r.states[i].t.listeners
    requires forall k :: i <= k < n && r.steps[k].ListenerDelete? ==> r.steps[k].listener != pk
    ensures pk in r.states[n].t.listeners && r.states[n].t.listeners[pk] == r.states[i].t.listeners[pk]
  {
    if i < n {
      ListenerLives(r, i, n - 1, pk);
      RunKeepsInv(r, n - 1, n - 1);
      RunStep(r, n - 1);
      StepListenerFate(r.states[n - 1], r.steps[n - 1], r.states[n], pk);
      ListenerUnchanging(r, i, n, pk);
    }
  }

  /** The registry invariant, in every reachable state. */
  lemma RegistryInvariant(r: Run, n: nat)
    requires IsRun(r) && n <= |r.steps|
    ensures var t := r.states[n].t;
            ForeignKeys(t) && Admitted(t) && UniqueListeners(t) && UniqueSlots(t)
  {
    RunKeepsInv(r, n, n);
  }

  /** Repeating a successful declaration changes nothing and gives the same answer. */
  lemma RedeclareListener(t: Tables, caller: Owner, namespace: string, userKey: string, routingKey: string)
    requires Sound(t) && DeclareListener(t, caller, namespace, userKey, routingKey).1.Ok?
    ensures var (t', answer) := DeclareListener(t, caller, namespace, userKey, routingKey);
            && DeclareListener(t', caller, namespace, userKey, routingKey) == (t', answer)
            && answer.value in t'.listeners
            && t'.listeners[answer.value] == Listener(userKey, caller, routingKey, namespace)
            && forall pk :: pk in t.listeners ==> pk in t'.listeners && t'.listeners[pk] == t.listeners[pk]
  {
    var (t', answer) := DeclareListener(t, caller, namespace, userKey, routingKey);
    ListenerDeclareSound(t, caller, namespace, userKey, routingKey);
    assert Named(t'.listeners[answer.value], userKey, caller, namespace);
    var again := FindListener(t', userKey, caller, namespace);
    assert again.Some? && again.value == answer.value;
  }

  lemma RedeclareNamespace(t: Tables, caller: Owner, name: string, isPublic: bool)
    requires DeclareNamespace(t, caller, name, isPublic).1.Ok?
    ensures var (t', answer) := DeclareNamespace(t, caller, name, isPublic);
            && DeclareNamespace(t', caller, name, isPublic) == (t', answer)
            && name in t'.namespaces && t'.namespaces[name] == answer.value == Namespace(caller, isPublic)
  {}

  // ---- No event is lost ----------------------------------------------------

  /** Between steps `i` and `n`, the slot's event was fetched and then the listener's
      owner acknowledged it with that very fetch's token, which was still current. */
  ghost predicate Handled(r: Run, i: nat, n: nat, slot: Slot)
    requires |r.states| == |r.steps| + 1 && n <= |r.steps|
  {
    exists f, k :: i < f < k < n && FetchedThenAcknowledged(r, f, k, slot)
  }

  ghost predicate FetchedThenAcknowledged(r: Run, f: nat, k: nat, slot: Slot)
    requires |r.states| == |r.steps| + 1 && f < |r.steps| && k < |r.steps|
  {
    var token := TokenReturned(r.states[f], r.steps[f]);
    && token.Some? && SlotOf(r.states[f].t.events[token.value.uuid]) == slot
    && r.steps[k].Acknowledge? && r.steps[k].token == token.value
    && Redeems(r.states[k].t, r.steps[k].caller, token.value)
  }

  /** Between steps `i` and `n`, the listener was deleted with its pending events. */
  ghost predicate Dropped(r: Run, i: nat, n: nat, slot: Slot)
    requires n <= |r.steps|
  {
    exists k :: i < k < n && r.steps[k] == ListenerDelete(slot.listener, true)
  }

  ghost predicate Accounted(r: Run, i: nat, n: nat, slot: Slot)
    requires |r.states| == |r.steps| + 1 && n <= |r.steps|
  {
    Pending(r.states[n].t, slot) || Handled(r, i, n, slot) || Dropped(r, i, n, slot)
  }

  /** A row for the slot exists whose generation was drawn at `drawn` or later. */
  ghost predicate Live(t: Tables, slot: Slot, drawn: nat) {
    exists pk :: pk in t.events && SlotOf(t.events[pk]) == slot && drawn <= t.events[pk].generation
  }

  lemma SentIsLive(s: State, a: Step, s': State, slot: Slot)
    requires Delivers(s.t, s'.t, SlotsSent(s, a), PrioritySent(a)) && slot in SlotsSent(s, a)
    ensures Live(s'.t, slot, s.t.drawn)
  {
    assert Pending(s'.t, slot);
    var pk :| pk in s'.t.events && SlotOf(s'.t.events[pk]) == slot;
    if pk in s.t.events {
      assert RowAfter(s.t, s'.t, pk, SlotsSent(s, a), PrioritySent(a));
    } else {
      assert RowAdded(s.t, s'.t, pk, SlotsSent(s, a), PrioritySent(a));
    }
  }

  lemma StepSends(s: State, a: Step, s': State)
    requires Next(s, a, s') && SlotsSent(s, a) != {}
    ensures Sends(a) && Delivers(s.t, s'.t, SlotsSent(s, a), PrioritySent(a))
  {}

  /** A step leaves a row with its slot and a generation at least as new, unless
      it acknowledges the row's own token or deletes its listener with its events. */
  lemma RowSurvives(s: State, a: Step, s': State, pk: Uuid)
    requires RowFate(s, a, s', pk) && pk in s.t.events && s.t.events[pk].generation < s.t.drawn
    requires a.Acknowledge? ==> a.token != TokenOf(s.t, pk) || !Redeems(s.t, a.caller, a.token)
    requires a != ListenerDelete(s.t.events[pk].listener, true)
    ensures pk in s'.t.events && SlotOf(s'.t.events[pk]) == SlotOf(s.t.events[pk])
    ensures s.t.events[pk].generation <= s'.t.events[pk].generation
  {}

  /** An acknowledgement with any other token than the row's current one, in
      particular one from before the row's last send, never removes the row. */
  lemma StaleAcknowledgement(t: Tables, caller: Owner, token: Token, pk: Uuid)
    requires pk in t.events
    ensures var t' := Acknowledged(t, caller, token);
            && (pk in t'.events ==> t'.events[pk] == t.events[pk])
            && (pk !in t'.events <==> token == TokenOf(t, pk) && Redeems(t, caller, token))
  {}

  /** A row that a step leaves behind was there before with the same slot, or is new. */
  lemma RowCameFrom(s: State, a: Step, s': State, pk: Uuid)
    requires RowFate(s, a, s', pk) && pk in s'.t.events && pk < s.t.drawn
    ensures pk in s.t.events && SlotOf(s.t.events[pk]) == SlotOf(s'.t.events[pk])
  {}

  /** Primary keys are not reused: a row seen at `n` that could exist at `f` did. */
  lemma {:induction false} SlotUnchanging(r: Run, f: nat, n: nat, pk: Uuid)
    requires IsRun(r) && f <= n <= |r.steps|
    requires pk in r.states[n].t.events && pk < r.states[f].t.drawn
    ensures pk in r.states[f].t.events
    ensures SlotOf(r.states[f].t.events[pk]) == SlotOf(r.states[n].t.events[pk])
  {
    if f < n {
      RunKeepsInv(r, f, n - 1);
      RunRowFate(r, n - 1, pk);
      RowCameFrom(r.states[n - 1], r.steps[n - 1], r.states[n], pk);
      SlotUnchanging(r, f, n - 1, pk);
    }
  }

  /** Every token in circulation was returned by an earlier fetch. */
  lemma {:induction false} IssuedByFetch(r: Run, n: nat, token: Token) returns (f: nat)
    requires IsRun(r) && n <= |r.steps| && token in r.states[n].issued
    ensures f < n && TokenReturned(r.states[f], r.steps[f]) == Some(token)
  {
    assert n > 0;
    RunStep(r, n - 1);
    if token in r.states[n - 1].issued {
      f := IssuedByFetch(r, n - 1, token);
    } else {
      f := n - 1;
    }
  }

  /** A row sent to at step `i` or later is removed by an acknowledgement only if
      the token came from a fetch of the same slot after step `i`. */
  lemma AcknowledgedAfter(r: Run, i: nat, n: nat, pk: Uuid)
    requires IsRun(r) && i < n < |r.steps|
    requires pk in r.states[n].t.events && r.states[i].t.drawn <= r.states[n].t.events[pk].generation
    requires !r.steps[i].Fetch?
    requires r.steps[n].Acknowledge? && r.steps[n].token == TokenOf(r.states[n].t, pk)
    requires Redeems(r.states[n].t, r.steps[n].caller, r.steps[n].token)
    ensures Handled(r, i, n + 1, SlotOf(r.states[n].t.events[pk]))
  {
    var token := r.steps[n].token;
    RunStep(r, n);
    var f := IssuedByFetch(r, n, token);
    RunKeepsInv(r, f, n);
    RunKeepsInv(r, f, if f <= i then i else f);
    assert token.generation < r.states[f].t.drawn;
    SlotUnchanging(r, f, n, pk);
    assert FetchedThenAcknowledged(r, f, n, SlotOf(r.states[n].t.events[pk]));
  }

  lemma AccountedMore(r: Run, i: nat, n: nat, slot: Slot)
    requires |r.states| == |r.steps| + 1 && n < |r.steps|
    ensures Handled(r, i, n, slot) ==> Handled(r, i, n + 1, slot)
    ensures Dropped(r, i, n, slot) ==> Dropped(r, i, n + 1, slot)
  {
    if Handled(r, i, n, slot) {
      var f, k :| i < f < k < n && FetchedThenAcknowledged(r, f, k, slot);
    }
    if Dropped(r, i, n, slot) {
      var k :| i < k < n && r.steps[k] == ListenerDelete(slot.listener, true);
    }
  }

  lemma SentIsLiveAt(r: Run, i: nat, slot: Slot)
    requires IsRun(r) && i < |r.steps| && slot in SlotsSent(r.states[i], r.steps[i])
    ensures Live(r.states[i + 1].t, slot, r.states[i].t.drawn)
  {
    RunStep(r, i);
    StepSends(r.states[i], r.steps[i], r.states[i + 1]);
    SentIsLive(r.states[i], r.steps[i], r.states[i + 1], slot);
  }

  lemma {:induction false} NoLostEventLive(r: Run, i: nat, n: nat, slot: Slot)
    requires IsRun(r) && i < n <= |r.steps| && slot in SlotsSent(r.states[i], r.steps[i])
    ensures Live(r.states[n].t, slot, r.states[i].t.drawn) || Handled(r, i, n, slot) || Dropped(r, i, n, slot)
  {
    if n == i + 1 {
      SentIsLiveAt(r, i, slot);
    } else {
      NoLostEventLive(r, i, n - 1, slot);
      AccountedMore(r, i, n - 1, slot);
      if Live(r.states[n - 1].t, slot, r.states[i].t.drawn) {
        LiveStep(r, i, n - 1, slot);
      }
    }
  }

  lemma LiveStep(r: Run, i: nat, n: nat, slot: Slot)
    requires IsRun(r) && i < n < |r.steps| && slot in SlotsSent(r.states[i], r.steps[i])
    requires Live(r.states[n].t, slot, r.states[i].t.drawn)
    ensures Live(r.states[n + 1].t, slot, r.states[i].t.drawn) || Handled(r, i, n + 1, slot) || Dropped(r, i, n + 1, slot)
  {
    var s, a := r.states[n], r.steps[n];
    var pk :| pk in s.t.events && SlotOf(s.t.events[pk]) == slot && r.states[i].t.drawn <= s.t.events[pk].generation;
    RunKeepsInv(r, i, n);
    if a.Acknowledge? && a.token == TokenOf(s.t, pk) && Redeems(s.t, a.caller, a.token) {
      AcknowledgedAfter(r, i, n, pk);
    } else if a == ListenerDelete(slot.listener, true) {
      assert Dropped(r, i, n + 1, slot);
    } else {
      RunRowFate(r, n, pk);
      RowSurvives(s, a, r.states[n + 1], pk);
    }
  }

  /** No lost event: once a step has sent to a slot, at every later moment a row
      for the slot is pending, or it was fetched after the send and that fetch
      acknowledged, or the listener was deleted together with its events. */
  lemma NoLostEvent(r: Run, i: nat, n: nat, slot: Slot)
    requires IsRun(r) && i < n <= |r.steps| && slot in SlotsSent(r.states[i], r.steps[i])
    ensures Accounted(r, i, n, slot)
  {
    NoLostEventLive(r, i, n, slot);
  }

  // ---- Priorities --------------------------------------------------------

  /** The priorities sent to the row's slot since the row was created, up to step `n`. */
  ghost function PrioritiesSince(r: Run, n: nat, pk: Uuid): set<int>
    requires |r.states| == |r.steps| + 1 && n <= |r.steps|
  {
    if n == 0 || pk !in r.states[n].t.events then {}
    else
      PrioritiesSince(r, n - 1, pk)
      + if SlotOf(r.states[n].t.events[pk]) in SlotsSent(r.states[n - 1], r.steps[n - 1])
        then {PrioritySent(r.steps[n - 1])} else {}
  }

  /** A row's priority is the least of all priorities sent to it since its creation. */
  lemma {:induction false} PriorityIsLeast(r: Run, n: nat, pk: Uuid)
    requires IsRun(r) && n <= |r.steps| && pk in r.states[n].t.events
    ensures r.states[n].t.events[pk].priority in PrioritiesSince(r, n, pk)
    ensures forall p :: p in PrioritiesSince(r, n, pk) ==> r.states[n].t.events[pk].priority <= p
  {
    assert n > 0;
    RunRowFate(r, n - 1, pk);
    if pk in r.states[n - 1].t.events {
      PriorityIsLeast(r, n - 1, pk);
    }
  }

  // ---- Spacing of retries --------------------------------------------------

  /** The steps before step `n` whose fetch returned the token, in order. */
  ghost function FetchSteps(r: Run, n: nat, token: Token): seq<nat>
    requires |r.states| == |r.steps| + 1 && n <= |r.steps|
  {
    if n == 0 then []
    else
      FetchSteps(r, n - 1, token)
      + if TokenReturned(r.states[n - 1], r.steps[n - 1]) == Some(token) then [n - 1] else []
  }

  /** The transaction time of the fetch at step `i`. */
  function TimeOf(r: Run, i: nat): Time { if i < |r.steps| && r.steps[i].Fetch? then r.steps[i].now else EPOCH }

  ghost predicate Holds(t: Tables, token: Token) {
    token.uuid in t.events && t.events[token.uuid].generation == token.generation
  }

  /** The step reruns the row, or unsilences it when it is silenced. */
  predicate Disturbs(s: State, a: Step, token: Token) {
    || (a.RerunEvents? && token.uuid in a.pks)
    || (a.Unsilence? && token.uuid in a.pks && token.uuid in s.t.events && s.t.events[token.uuid].silenced)
  }

  /** The row is not disturbed between steps `i` and `n`. */
  ghost predicate Calm(r: Run, i: nat, n: nat, token: Token) {
    forall k :: i < k < n && k < |r.steps| && k < |r.states| ==> !Disturbs(r.states[k], r.steps[k], token)
  }

  /** Unless the row was disturbed in between, the k-th fetch and the next are more
      than the k-th delay apart. */
  ghost predicate Spaced(r: Run, fetches: seq<nat>, token: Token) {
    forall k :: 0 < k < |fetches| && Calm(r, fetches[k - 1], fetches[k], token) ==>
      TimeOf(r, fetches[k - 1]) + Backoff(k) < TimeOf(r, fetches[k])
  }

  /** The row has been fetched `count` times in this generation, the last time, if
      that is still known from the row, at `last`. */
  ghost predicate Counted(t: Tables, token: Token, count: nat, last: Option<Time>) {
    && (count > 0 ==> token.generation < t.drawn)
    && (Holds(t, token) ==>
        && t.events[token.uuid].fetchedCount == count
        && (last.Some? ==> t.events[token.uuid].lastTried == last.value))
    && (last.Some? ==> count > 0)
  }

  /** The time of the last fetch, while the row is calm since. */
  ghost function LastFetch(r: Run, fetches: seq<nat>, n: nat, token: Token): Option<Time> {
    if fetches != [] && Calm(r, fetches[|fetches| - 1], n, token)
    then Some(TimeOf(r, fetches[|fetches| - 1])) else None
  }

  lemma CountedStep(s: State, a: Step, s': State, token: Token, count: nat, last: Option<Time>)
    requires RowFate(s, a, s', token.uuid) && Counted(s.t, token, count, last) && s.t.drawn <= s'.t.drawn
    requires TokenReturned(s, a) != Some(token)
    ensures Counted(s'.t, token, count, if Disturbs(s, a, token) then None else last)
  {}

  lemma FetchSpacedAt(r: Run, n: nat, token: Token, count: nat, last: Option<Time>)
    requires IsRun(r) && n < |r.steps| && Counted(r.states[n].t, token, count, last)
    requires TokenReturned(r.states[n], r.steps[n]) == Some(token)
    ensures Counted(r.states[n + 1].t, token, count + 1, Some(TimeOf(r, n)))
    ensures last.Some? ==> last.value + Backoff(count) < TimeOf(r, n)
  {
    var s, a := r.states[n], r.steps[n];
    RunDraws(r, n, n);
    RunStep(r, n);
    assert Eligible(s.t, a.caller, a.listener, a.now, a.locked, token.uuid);
    assert Holds(s.t, token);
  }

  lemma CountedAt(r: Run, n: nat, token: Token, count: nat, last: Option<Time>)
    requires IsRun(r) && n < |r.steps|
    requires Counted(r.states[n].t, token, count, last) && TokenReturned(r.states[n], r.steps[n]) != Some(token)
    ensures Counted(r.states[n + 1].t, token, count, if Disturbs(r.states[n], r.steps[n], token) then None else last)
  {
    RunDraws(r, n, n + 1);
    RunRowFate(r, n, token.uuid);
    CountedStep(r.states[n], r.steps[n], r.states[n + 1], token, count, last);
  }

  ghost predicate Ascending(fetches: seq<nat>, n: nat) {
    && (forall k :: 0 <= k < |fetches| ==> fetches[k] < n)
    && (forall j, k :: 0 <= j < k < |fetches| ==> fetches[j] < fetches[k])
  }

  lemma {:induction false} FetchStepsAscend(r: Run, n: nat, token: Token)
    requires |r.states| == |r.steps| + 1 && n <= |r.steps|
    ensures Ascending(FetchSteps(r, n, token), n)
  {
    if n > 0 {
      FetchStepsAscend(r, n - 1, token);
    }
  }

  lemma LastFetchStep(r: Run, fetches: seq<nat>, n: nat, token: Token)
    requires n < |r.steps| && n < |r.states| && Ascending(fetches, n)
    ensures LastFetch(r, fetches, n + 1, token)
         == if Disturbs(r.states[n], r.steps[n], token) then None else LastFetch(r, fetches, n, token)
    ensures LastFetch(r, fetches + [n], n + 1, token) == Some(TimeOf(r, n))
  {
    if fetches != [] {
      var l := fetches[|fetches| - 1];
      assert Calm(r, l, n + 1, token) <==> Calm(r, l, n, token) && !Disturbs(r.states[n], r.steps[n], token);
    }
  }

  lemma SpacedMore(r: Run, fetches: seq<nat>, n: nat, token: Token)
    requires Spaced(r, fetches, token)
    requires var last := LastFetch(r, fetches, n, token);
             last.Some? ==> last.value + Backoff(|fetches|) < TimeOf(r, n)
    ensures Spaced(r, fetches + [n], token)
  {
    var more := fetches + [n];
    forall k | 0 < k < |more| && Calm(r, more[k - 1], more[k], token)
      ensures TimeOf(r, more[k - 1]) + Backoff(k) < TimeOf(r, more[k])
    {
      assert more[k - 1] == fetches[k - 1];
    }
  }

  ghost predicate Tracked(r: Run, fetches: seq<nat>, n: nat, token: Token)
    requires n < |r.states|
  {
    Counted(r.states[n].t, token, |fetches|, LastFetch(r, fetches, n, token)) && Spaced(r, fetches, token)
  }

  lemma TrackedFetch(r: Run, fetches: seq<nat>, n: nat, token: Token)
    requires IsRun(r) && n < |r.steps| && Ascending(fetches, n) && Tracked(r, fetches, n, token)
    requires TokenReturned(r.states[n], r.steps[n]) == Some(token)
    ensures Tracked(r, fetches + [n], n + 1, token)
  {
    LastFetchStep(r, fetches, n, token);
    FetchSpacedAt(r, n, token, |fetches|, LastFetch(r, fetches, n, token));
    SpacedMore(r, fetches, n, token);
  }

  lemma TrackedOther(r: Run, fetches: seq<nat>, n: nat, token: Token)
    requires IsRun(r) && n < |r.steps| && Ascending(fetches, n) && Tracked(r, fetches, n, token)
    requires TokenReturned(r.states[n], r.steps[n]) != Some(token)
    ensures Tracked(r, fetches, n + 1, token)
  {
    LastFetchStep(r, fetches, n, token);
    CountedAt(r, n, token, |fetches|, LastFetch(r, fetches, n, token));
  }

  lemma TrackedStep(r: Run, n: nat, token: Token)
    requires IsRun(r) && n < |r.steps| && Tracked(r, FetchSteps(r, n, token), n, token)
    ensures Tracked(r, FetchSteps(r, n + 1, token), n + 1, token)
  {
    FetchStepsAscend(r, n, token);
    var fetches := FetchSteps(r, n, token);
    if TokenReturned(r.states[n], r.steps[n]) == Some(token) {
      TrackedFetch(r, fetches, n, token);
    } else {
      TrackedOther(r, fetches, n, token);
      assert FetchSteps(r, n + 1, token) == fetches + [] == fetches;
    }
  }

  lemma {:induction false} FetchesCounted(r: Run, n: nat, token: Token)
    requires IsRun(r) && n <= |r.steps|
    ensures Tracked(r, FetchSteps(r, n, token), n, token)
  {
    if n > 0 {
      FetchesCounted(r, n - 1, token);
      TrackedStep(r, n - 1, token);
    }
  }

  /** The sum of the first `n` delays. */
  ghost function DelaySum(n: nat): Time { if n == 0 then 0 else DelaySum(n - 1) + Backoff(n) }

  lemma {:induction false} DelaySumGrows(a: nat, b: nat)
    requires a <= b
    ensures DelaySum(b) - DelaySum(a) >= 180_000_000 * (b - a)
  {
    if a < b {
      DelaySumGrows(a, b - 1);
      BackoffBounds(b, b);
    }
  }

  lemma {:induction false} SpacedSum(r: Run, fetches: seq<nat>, n: nat, token: Token, a: nat, b: nat)
    requires Spaced(r, fetches, token) && Ascending(fetches, n) && a < b < |fetches|
    requires Calm(r, fetches[a], fetches[b], token)
    ensures TimeOf(r, fetches[a]) + (DelaySum(b) - DelaySum(a)) < TimeOf(r, fetches[b])
  {
    assert fetches[b - 1] < fetches[b] && fetches[a] <= fetches[b - 1];
    assert Calm(r, fetches[b - 1], fetches[b], token);
    if a < b - 1 {
      assert Calm(r, fetches[a], fetches[b - 1], token);
      SpacedSum(r, fetches, n, token, a, b - 1);
    }
  }

  /** Retry spacing, whatever the transaction clocks do and whatever happened before:
      if the row is not disturbed between the k-th fetch of a generation and the next,
      they are more than the k-th delay apart. */
  lemma RetrySpacing(r: Run, n: nat, token: Token, k: nat)
    requires IsRun(r) && n <= |r.steps| && 0 < k < |FetchSteps(r, n, token)|
    ensures var fetches := FetchSteps(r, n, token);
            Calm(r, fetches[k - 1], fetches[k], token) ==>
              TimeOf(r, fetches[k - 1]) + Backoff(k) < TimeOf(r, fetches[k])
  {
    FetchesCounted(r, n, token);
  }

  /** Over any calm stretch, the fetches span more than the sum of the delays between
      them, each of at least three minutes. */
  lemma RetrySpan(r: Run, n: nat, token: Token, a: nat, b: nat)
    requires IsRun(r) && n <= |r.steps| && a < b < |FetchSteps(r, n, token)|
    requires var fetches := FetchSteps(r, n, token); Calm(r, fetches[a], fetches[b], token)
    ensures var fetches := FetchSteps(r, n, token);
            TimeOf(r, fetches[b]) - TimeOf(r, fetches[a]) > DelaySum(b) - DelaySum(a) >= 180_000_000 * (b - a)
  {
    FetchesCounted(r, n, token);
    FetchStepsAscend(r, n, token);
    SpacedSum(r, FetchSteps(r, n, token), n, token, a, b);
    DelaySumGrows(a, b);
  }
}
