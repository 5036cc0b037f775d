/** What the operations on the event tables come to, spelled out on the columns. */
module EventColumns {
  import opened Prelude
  import opened EventTables
  import opened EventSystem

  // ---- Sends -------------------------------------------------------------

  /** What a send does to the row of an addressed slot. */
  lemma AddressedRow(t: Tables, t': Tables, slots: set<Slot>, p: int, pk: Uuid)
    requires Delivers(t, t', slots, p) && pk in t'.events
    requires Slot(t'.events[pk].listener, t'.events[pk].subject) in slots
    ensures var e' := t'.events[pk];
            && t.drawn <= e'.generation && e'.lastTried == 0 && e'.fetchedCount == 0 && e'.priority <= p
            && (pk in t.events ==>
                  && e'.listener == t.events[pk].listener && e'.subject == t.events[pk].subject
                  && e'.silenced == t.events[pk].silenced
                  && e'.priority <= t.events[pk].priority && (e'.priority == p || e'.priority == t.events[pk].priority))
            && (pk !in t.events ==> e'.priority == p && !e'.silenced)
  {
    if pk in t.events {
      assert RowAfter(t, t', pk, slots, p);
    } else {
      assert RowAdded(t, t', pk, slots, p);
    }
  }

  /** The row of any other slot was there before, just as it is, and stays. */
  lemma OtherRows(t: Tables, t': Tables, slots: set<Slot>, p: int, l: Uuid, x: string)
    requires Delivers(t, t', slots, p) && Slot(l, x) !in slots
    ensures forall pk :: pk in t'.events && t'.events[pk].listener == l && t'.events[pk].subject == x ==>
              pk in t.events && t.events[pk] == t'.events[pk]
    ensures forall pk :: pk in t.events && t.events[pk].listener == l && t.events[pk].subject == x ==>
              pk in t'.events && t'.events[pk] == t.events[pk]
  {
    forall pk | pk in t'.events && t'.events[pk].listener == l && t'.events[pk].subject == x
      ensures pk in t.events && t.events[pk] == t'.events[pk]
    {
      assert SlotOf(t'.events[pk]) == Slot(l, x);
      assert pk !in t.events ==> RowAdded(t, t', pk, slots, p);
      assert RowAfter(t, t', pk, slots, p);
    }
    forall pk | pk in t.events && t.events[pk].listener == l && t.events[pk].subject == x
      ensures pk in t'.events && t'.events[pk] == t.events[pk]
    {
      assert SlotOf(t.events[pk]) == Slot(l, x) && RowAfter(t, t', pk, slots, p);
    }
  }

  /** After a send with priority `p`, a row of a new generation for the listener and
      subject, due at once, whose priority is `p` or the lower one that it had. */
  ghost predicate HasNew(t: Tables, t': Tables, l: Uuid, x: string, p: int) {
    exists pk :: pk in t'.events && t'.events[pk].listener == l && t'.events[pk].subject == x
      && t.drawn <= t'.events[pk].generation && t'.events[pk].lastTried == 0 && t'.events[pk].fetchedCount == 0
      && t'.events[pk].priority == if pk in t.events && t.events[pk].priority < p then t.events[pk].priority else p
  }

  /** The rows for the listener and subject are the same in both. */
  ghost predicate SameRows(t: Tables, t': Tables, l: Uuid, x: string) {
    forall pk: Uuid ::
      && (pk in t.events && t.events[pk].listener == l && t.events[pk].subject == x ==>
            pk in t'.events && t'.events[pk] == t.events[pk])
      && (pk in t'.events && t'.events[pk].listener == l && t'.events[pk].subject == x ==>
            pk in t.events && t.events[pk] == t'.events[pk])
  }

  lemma SlotReached(t: Tables, t': Tables, slots: set<Slot>, p: int, l: Uuid, x: string)
    requires Delivers(t, t', slots, p)
    ensures Slot(l, x) in slots ==> HasNew(t, t', l, x, p)
    ensures Slot(l, x) !in slots ==> SameRows(t, t', l, x)
  {
    if Slot(l, x) in slots {
      assert Pending(t', Slot(l, x));
      var pk :| pk in t'.events && SlotOf(t'.events[pk]) == Slot(l, x);
      AddressedRow(t, t', slots, p, pk);
    } else {
      OtherRows(t, t', slots, p, l, x);
    }
  }

  /** What adding an event comes to for one listener and subject: a new row, due at once,
      if the listener's columns agree with what the send asks for, and nothing if not. */
  lemma EventAdded(t: Tables, t': Tables, namespace: string, routingKey: string, subjects: set<string>, p: int,
                   only: Option<Uuid>, ownedBy: Option<Owner>, l: Uuid, x: string)
    requires Delivers(t, t', SlotsFor(Addressees(t, namespace, routingKey, only, ownedBy), subjects), p)
    ensures if && x in subjects && l in t.listeners
               && t.listeners[l].namespace == namespace && t.listeners[l].routingKey == routingKey
               && (only == None || only == Some(l)) && (ownedBy == None || ownedBy == Some(t.listeners[l].owner))
            then HasNew(t, t', l, x, p) else SameRows(t, t', l, x)
  {
    SlotIsFor(Addressees(t, namespace, routingKey, only, ownedBy), subjects, l, x);
    SlotReached(t, t', SlotsFor(Addressees(t, namespace, routingKey, only, ownedBy), subjects), p, l, x);
  }

  /** The same for an uninterrupted emitter run, and any number of rows found. */
  lemma EventsEmitted(t: Tables, t': Tables, found: set<(string, string)>, l: Uuid, x: string)
    requires Delivers(t, t', SlotsFound(t, found), DEFAULT_PRIORITY)
    ensures if && l in t.listeners && t.listeners[l].namespace == "mo"
               && (t.listeners[l].routingKey, x) in found
            then HasNew(t, t', l, x, 10000) else SameRows(t, t', l, x)
  {
    if l in t.listeners {
      var f := (t.listeners[l].routingKey, x);
      assert f in found && t.listeners[l].namespace == "mo" ==> l in Addressees(t, "mo", f.0, None, None);
    }
    SlotReached(t, t', SlotsFound(t, found), DEFAULT_PRIORITY, l, x);
  }

  /** The steps of the state machine that send: by priority, listener and subject. */
  lemma SendStep(s: State, caller: Owner, namespace: string, routingKey: string, subject: string, p: int, s': State,
                 l: Uuid, x: string)
    requires Next(s, Send(caller, namespace, routingKey, subject, p), s')
    ensures if && p >= 1 && |subject| <= 220 && namespace in s.t.namespaces && s.t.namespaces[namespace].owner == caller
               && x == subject && l in s.t.listeners
               && s.t.listeners[l].namespace == namespace && s.t.listeners[l].routingKey == routingKey
            then HasNew(s.t, s'.t, l, x, p) else SameRows(s.t, s'.t, l, x)
  {
    var a := Send(caller, namespace, routingKey, subject, p);
    SlotIsFor(Addressees(s.t, namespace, routingKey, None, None), {subject}, l, x);
    SlotReached(s.t, s'.t, SlotsSent(s, a), PrioritySent(a), l, x);
  }

  lemma RefreshStep(s: State, routingKey: string, subjects: set<string>, p: int, only: Option<Uuid>, ownedBy: Option<Owner>,
                    s': State, l: Uuid, x: string)
    requires Next(s, Refresh(routingKey, subjects, p, only, ownedBy), s')
    ensures if && x in subjects && l in s.t.listeners
               && s.t.listeners[l].namespace == "mo" && s.t.listeners[l].routingKey == routingKey
               && (only == None || only == Some(l)) && (ownedBy == None || ownedBy == Some(s.t.listeners[l].owner))
            then HasNew(s.t, s'.t, l, x, p) else SameRows(s.t, s'.t, l, x)
  {
    EventAdded(s.t, s'.t, "mo", routingKey, subjects, p, only, ownedBy, l, x);
  }

  lemma CommitStep(s: State, s': State, l: Uuid, x: string)
    requires Next(s, Commit, s')
    ensures if l in s.t.listeners && Slot(l, x) in s.run.sent
            then HasNew(s.t, s'.t, l, x, 10000) else SameRows(s.t, s'.t, l, x)
  {
    SlotReached(s.t, s'.t, SlotsSent(s, Commit), PrioritySent(Commit), l, x);
  }

  /** Why a send is refused, in this order. */
  lemma RefusedSends(t: Tables, caller: Owner, namespace: string, subject: string, p: int)
    ensures var r := SendRefusal(t, caller, namespace, subject, p);
            && (r == Some("priority must be natural") <==> p <= 0)
            && (r == Some("Too large subject.") <==> p > 0 && |subject| >= 221)
            && (r == Some("Namespace does not exist.") <==> p > 0 && |subject| <= 220 && namespace !in t.namespaces)
            && (r == Some("You are not the owner of that namespace.") <==>
                  p > 0 && |subject| <= 220 && namespace in t.namespaces && t.namespaces[namespace].owner != caller)
            && (r == None <==>
                  p > 0 && |subject| <= 220 && namespace in t.namespaces && t.namespaces[namespace].owner == caller)
  {
    assert "priority must be natural"[0] == 'p' && "Too large subject."[0] == 'T';
    assert "Namespace does not exist."[0] == 'N' && "You are not the owner of that namespace."[0] == 'Y';
  }

  // ---- Fetches and acknowledgements ---------------------------------------

  /** Which rows a fetch may take. */
  lemma EligibleRows(t: Tables, caller: Owner, listener: Uuid, now: Time, locked: set<Uuid>, pk: Uuid)
    ensures Eligible(t, caller, listener, now, locked, pk) <==>
      && pk in t.events && pk !in locked && t.events[pk].listener == listener
      && listener in t.listeners && t.listeners[listener].owner == caller
      && now - t.events[pk].lastTried > Backoff(t.events[pk].fetchedCount)
  {}

  /** The row taken comes first: by silenced, then priority, then number of fetches. */
  lemma PickedFirst(t: Tables, caller: Owner, listener: Uuid, now: Time, locked: set<Uuid>, pk: Uuid, q: Uuid)
    requires Picks(t, caller, listener, now, locked, Some(pk)) && Eligible(t, caller, listener, now, locked, q)
    ensures t.events[pk].silenced ==> t.events[q].silenced
    ensures t.events[pk].silenced == t.events[q].silenced ==> t.events[pk].priority <= t.events[q].priority
    ensures t.events[pk].silenced == t.events[q].silenced && t.events[pk].priority == t.events[q].priority ==>
              t.events[pk].fetchedCount <= t.events[q].fetchedCount
  {
    assert NotAfter(t.events[pk], t.events[q]);
  }

  /** And every eligible row with which no other compares better can be taken. */
  lemma FirstPicked(t: Tables, caller: Owner, listener: Uuid, now: Time, locked: set<Uuid>, pk: Uuid)
    requires Eligible(t, caller, listener, now, locked, pk)
    requires forall q :: Eligible(t, caller, listener, now, locked, q) ==>
      var a, b := t.events[pk], t.events[q];
      || (!a.silenced && b.silenced)
      || (a.silenced == b.silenced && a.priority < b.priority)
      || (a.silenced == b.silenced && a.priority == b.priority && a.fetchedCount <= b.fetchedCount)
    ensures Picks(t, caller, listener, now, locked, Some(pk))
  {}

  /** What a fetch leaves behind. */
  lemma FetchedRows(t: Tables, picked: Option<Uuid>, now: Time, pk: Uuid)
    requires (picked.Some? ==> picked.value in t.events) && pk in t.events
    ensures var t' := Fetched(t, picked, now);
            && t'.events.Keys == t.events.Keys && t'.listeners == t.listeners && t'.namespaces == t.namespaces
            && (picked != Some(pk) ==> t'.events[pk] == t.events[pk])
            && (picked == Some(pk) ==>
                  && t'.events[pk].lastTried == now && t'.events[pk].fetchedCount == t.events[pk].fetchedCount + 1
                  && t'.events[pk] == t.events[pk].(lastTried := now, fetchedCount := t'.events[pk].fetchedCount))
  {}

  /** An acknowledgement removes the row it names if the generation is current and the
      caller owns the listener, and no other row. */
  lemma AcknowledgedRows(t: Tables, caller: Owner, token: Token, pk: Uuid)
    requires pk in t.events
    ensures var t' := Acknowledged(t, caller, token);
            && t'.listeners == t.listeners && t'.namespaces == t.namespaces && t'.events.Keys <= t.events.Keys
            && (pk in t'.events ==> t'.events[pk] == t.events[pk])
            && (pk !in t'.events <==>
                  && pk == token.uuid && t.events[pk].generation == token.generation
                  && t.events[pk].listener in t.listeners && t.listeners[t.events[pk].listener].owner == caller)
  {}

  // ---- Maintenance ---------------------------------------------------------

  /** Which rows a filter selects: each condition given holds, the others are free. */
  lemma SelectedRows(t: Tables, f: EventFilter, pk: Uuid)
    requires pk in t.events && t.events[pk].listener in t.listeners
    ensures var e, l := t.events[pk], t.listeners[t.events[pk].listener];
            pk in Selected(t, f) <==>
              && (f.subjects == None || e.subject in f.subjects.value)
              && (f.priorities == None || e.priority in f.priorities.value)
              && (f.silenced == None || f.silenced == Some(e.silenced))
              && (f.listeners.Some? ==> (
                    var lf := f.listeners.value;
                    && (lf.uuids == None || e.listener in lf.uuids.value)
                    && (lf.userKeys == None || l.userKey in lf.userKeys.value)
                    && (lf.owners == None || l.owner in lf.owners.value)
                    && (lf.routingKeys == None || l.routingKey in lf.routingKeys.value)
                    && (lf.namespaces.Some? ==> (
                          var nf := lf.namespaces.value;
                          && l.namespace in t.namespaces
                          && (nf.names == None || l.namespace in nf.names.value)
                          && (nf.owners == None || t.namespaces[l.namespace].owner in nf.owners.value)
                          && (nf.isPublic == None || nf.isPublic == Some(t.namespaces[l.namespace].isPublic))))))
  {}

  /** What maintenance leaves of a row. */
  lemma MaintainedRows(t: Tables, pks: set<Uuid>, pk: Uuid)
    requires pk in t.events
    ensures var e := t.events[pk];
            && pk in Silenced(t, pks).events && pk in Unsilenced(t, pks).events && pk in Rerun(t, pks).events
            && Silenced(t, pks).events[pk] == e.(silenced := e.silenced || pk in pks)
            && Unsilenced(t, pks).events[pk]
               == e.(silenced := e.silenced && pk !in pks, lastTried := if e.silenced && pk in pks then 0 else e.lastTried)
            && Rerun(t, pks).events[pk] == e.(lastTried := if pk in pks then 0 else e.lastTried)
  {}

  // ---- The registry --------------------------------------------------------

  /** When a namespace can be declared, and what that leaves. */
  lemma NamespaceDeclared(t: Tables, caller: Owner, name: string, isPublic: bool)
    ensures var (t', r) := DeclareNamespace(t, caller, name, isPublic);
            && (r.Ok? <==> name !in t.namespaces
                           || (t.namespaces[name].owner == caller && t.namespaces[name].isPublic == isPublic))
            && (r.Refused? ==> t' == t)
            && (r.Ok? ==> t'.listeners == t.listeners && t'.events == t.events
                          && t'.namespaces == t.namespaces[name := Namespace(caller, isPublic)])
  {}

  lemma NamespaceDeleted(t: Tables, name: string)
    ensures var (t', r) := DeleteNamespace(t, name);
            && (r.Refused? <==> exists l :: l in t.listeners && t.listeners[l].namespace == name)
            && (r.Refused? ==> t' == t)
            && (r.Ok? ==> && t'.listeners == t.listeners && t'.events == t.events && name !in t'.namespaces
                          && (forall other :: other in t.namespaces && other != name ==>
                                other in t'.namespaces && t'.namespaces[other] == t.namespaces[other]))
  {}

  /** When a listener can be declared: the namespace exists and is public or the
      caller's, and any listener of that name has the same routing key. */
  lemma ListenerDeclared(t: Tables, caller: Owner, namespace: string, userKey: string, routingKey: string)
    requires Sound(t)
    ensures var (t', r) := DeclareListener(t, caller, namespace, userKey, routingKey);
            && (r.Ok? <==>
                  && namespace in t.namespaces
                  && (t.namespaces[namespace].isPublic || t.namespaces[namespace].owner == caller)
                  && forall l | l in t.listeners && t.listeners[l].userKey == userKey && t.listeners[l].owner == caller ::
                       t.listeners[l].namespace == namespace ==> t.listeners[l].routingKey == routingKey)
            && (r.Refused? ==> t' == t)
            && (r.Ok? ==> && t'.events == t.events && t'.namespaces == t.namespaces && r.value in t'.listeners
                          && t'.listeners == t.listeners[r.value := Listener(userKey, caller, routingKey, namespace)])
  {
    var found := FindListener(t, userKey, caller, namespace);
    if found.Some? {
      assert forall l :: l in t.listeners && Named(t.listeners[l], userKey, caller, namespace) ==> l == found.value;
    }
  }

  /** A listener with pending events goes only together with them. */
  lemma ListenerDeleted(t: Tables, listener: Uuid, deletePending: bool)
    ensures var (t', r) := DeleteListener(t, listener, deletePending);
            && (r.Refused? <==> !deletePending && exists pk :: pk in t.events && t.events[pk].listener == listener)
            && (r.Refused? ==> t' == t)
            && (r.Ok? ==>
                  && t'.namespaces == t.namespaces && listener !in t'.listeners
                  && (forall l :: l in t.listeners && l != listener ==> l in t'.listeners && t'.listeners[l] == t.listeners[l])
                  && (forall pk :: pk in t'.events <==> pk in t.events && t.events[pk].listener != listener)
                  && (forall pk :: pk in t'.events ==> t'.events[pk] == t.events[pk]))
  {}
}
