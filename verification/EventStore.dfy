/** The operations of the event system as they run against the database, each
    proved to do to the tables what the state machine says its step does. */
module EventStore {
  import opened Prelude
  import opened EventTables
  import opened EventSystem

  /** What a fetch hands to the consumer. */
  datatype FetchedEvent = FetchedEvent(subject: string, priority: int, token: Token)

  class EventDatabase {
    var namespaces: map<string, Namespace>
    var listeners: map<Uuid, Listener>
    var events: map<Uuid, Event>
    var drawn: nat
    var lastRun: Time

    function Contents(): Tables
      reads this
    {
      Tables(namespaces, listeners, events, drawn)
    }

    ghost predicate Valid()
      reads this
    {
      Sound(Contents())
    }

    /** A fresh database knows the public namespace of the built-in events. */
    constructor (owner: Owner, now: Time)
      ensures Valid() && lastRun == now
      ensures Contents() == Tables(map["mo" := Namespace(owner, true)], map[], map[], 0)
    {
      namespaces, listeners, events, drawn, lastRun := map["mo" := Namespace(owner, true)], map[], map[], 0, now;
    }

    /** The UUID generator. */
    method DrawUuid() returns (u: Uuid)
      modifies `drawn
      ensures u == old(drawn) && drawn == old(drawn) + 1
    {
      u := drawn;
      drawn := drawn + 1;
    }

    method NamespaceDeclare(caller: Owner, name: string, isPublic: bool) returns (r: Result<Namespace>)
      requires Valid()
      modifies `namespaces
      ensures Valid() && (Contents(), r) == DeclareNamespace(old(Contents()), caller, name, isPublic)
    {
      ghost var t := Contents();
      NamespaceDeclareSound(t, caller, name, isPublic);
      if name !in namespaces {
        namespaces := namespaces[name := Namespace(caller, isPublic)];
      }
      var ns := namespaces[name];
      if ns.owner != caller {
        return Refused("Namespace already claimed by another owner.");
      }
      if ns.isPublic != isPublic {
        return Refused("Namespace already exists with another visibility.");
      }
      return Ok(ns);
    }

    /** A namespace that still has listeners is protected by their foreign key. */
    method NamespaceDelete(name: string) returns (r: Result<bool>)
      requires Valid()
      modifies `namespaces
      ensures Valid() && (Contents(), r) == DeleteNamespace(old(Contents()), name)
    {
      NamespaceDeleteSound(Contents(), name);
      if pk :| pk in listeners && listeners[pk].namespace == name {
        return Refused("There are still listeners for this namespace.");
      }
      namespaces := namespaces - {name};
      return Ok(true);
    }

    method ListenerNamed(userKey: string, owner: Owner, namespace: string) returns (r: Option<Uuid>)
      requires Valid()
      ensures r == FindListener(Contents(), userKey, owner, namespace)
    {
      r := None;
      if pk :| pk in listeners && Named(listeners[pk], userKey, owner, namespace) {
        FoundListener(Contents(), pk, userKey, owner, namespace);
        r := Some(pk);
      }
    }

    method ListenerDeclare(caller: Owner, namespace: string, userKey: string, routingKey: string)
        returns (r: Result<Uuid>)
      requires Valid()
      modifies `listeners, `drawn
      ensures Valid() && (Contents(), r) == DeclareListener(old(Contents()), caller, namespace, userKey, routingKey)
    {
      ListenerDeclareSound(Contents(), caller, namespace, userKey, routingKey);
      if namespace !in namespaces {
        return Refused("Namespace does not exist");
      }
      if !namespaces[namespace].isPublic && namespaces[namespace].owner != caller {
        return Refused("Namespace is non-public and you are not the owner.");
      }
      var existing := ListenerNamed(userKey, caller, namespace);
      if existing.Some? {
        if listeners[existing.value].routingKey != routingKey {
          return Refused("There already exists a listener with this user_key and a different routing_key");
        }
        return Ok(existing.value);
      }
      var pk := DrawUuid();
      listeners := listeners[pk := Listener(userKey, caller, routingKey, namespace)];
      return Ok(pk);
    }

    /** Deletes the pending events first if asked to; a listener that still has
        events then makes the transaction fail and roll back. */
    method ListenerDelete(listener: Uuid, deletePending: bool) returns (r: Result<bool>)
      requires Valid()
      modifies `listeners, `events
      ensures Valid() && (Contents(), r) == DeleteListener(old(Contents()), listener, deletePending)
    {
      ListenerDeleteSound(Contents(), listener, deletePending);
      ghost var before := events;
      if deletePending {
        events := map pk | pk in events && events[pk].listener != listener :: events[pk];
      }
      if pk :| pk in events && events[pk].listener == listener {
        return Refused("There are pending events for this listener.");
      }
      listeners := listeners - {listener};
      assert events == map pk | pk in before && before[pk].listener != listener :: before[pk];
      return Ok(true);
    }

    /** Inserts the row of one slot, or renews it if the slot has one. */
    method Upsert(slot: Slot, priority: int)
      requires Valid() && slot.listener in listeners
      modifies `events, `drawn
      ensures Valid() && Delivers(old(Contents()), Contents(), {slot}, priority)
    {
      var generation := DrawUuid();
      if pk :| pk in events && SlotOf(events[pk]) == slot {
        var e := events[pk];
        events := events[pk := e.(generation := generation, lastTried := EPOCH,
                                  priority := Min(priority, e.priority), fetchedCount := 0)];
        RenewedDelivers(old(Contents()), Contents(), pk, priority);
      } else {
        var pk := DrawUuid();
        events := events[pk := Event(slot.listener, slot.subject, priority, generation, EPOCH, 0, false)];
        InsertedDelivers(old(Contents()), Contents(), slot, pk, priority);
      }
      DeliversSound(old(Contents()), Contents(), {slot}, priority);
    }

    /** One more slot, on top of those sent to since `t`. */
    method UpsertMore(slot: Slot, priority: int, ghost t: Tables, ghost done: set<Slot>)
      requires Valid() && slot.listener in listeners
      requires AllDrawn(t) && Delivers(t, Contents(), done, priority)
      modifies `events, `drawn
      ensures Valid() && Delivers(t, Contents(), done + {slot}, priority)
    {
      ghost var before := Contents();
      Upsert(slot, priority);
      DeliversCompose(t, before, Contents(), done, {slot}, priority);
    }

    /** One more listener, on top of those sent to since `t`. */
    method AddFor(l: Uuid, subject: string, priority: int, ghost t: Tables, ghost done: set<Uuid>)
      requires Valid() && l in listeners
      requires AllDrawn(t) && Delivers(t, Contents(), SlotsFor(done, {subject}), priority)
      modifies `events, `drawn
      ensures Valid() && Delivers(t, Contents(), SlotsFor(done + {l}, {subject}), priority)
    {
      SlotsForMore(done, l, subject);
      UpsertMore(Slot(l, subject), priority, t, SlotsFor(done, {subject}));
    }

    /** Sends an event to every matching listener. */
    method AddEvent(namespace: string, routingKey: string, subject: string, priority: int,
                    only: Option<Uuid>, ownedBy: Option<Owner>)
      requires Valid()
      modifies `events, `drawn
      ensures Valid()
      ensures Delivers(old(Contents()), Contents(),
                       SlotsFor(Addressees(old(Contents()), namespace, routingKey, only, ownedBy), {subject}), priority)
    {
      ghost var t := Contents();
      var todo := Addressees(Contents(), namespace, routingKey, only, ownedBy);
      ghost var to, done := todo, {};
      NothingSent(t, subject, priority);
      while todo != {}
        invariant Valid() && listeners == t.listeners && todo <= to && done == to - todo
        invariant Delivers(t, Contents(), SlotsFor(done, {subject}), priority)
        decreases todo
      {
        var l :| l in todo;
        assert l in to && to - (todo - {l}) == done + {l};
        AddFor(l, subject, priority, t, done);
        done, todo := done + {l}, todo - {l};
      }
      assert done == to;
    }

    method EventSend(caller: Owner, namespace: string, routingKey: string, subject: string, priority: int)
        returns (r: Result<bool>)
      requires Valid()
      modifies `events, `drawn
      ensures Valid()
      ensures var refusal := SendRefusal(old(Contents()), caller, namespace, subject, priority);
              if refusal.Some? then r == Refused(refusal.value) && Contents() == old(Contents()) else
              && r == Ok(true)
              && Delivers(old(Contents()), Contents(),
                          SlotsFor(Addressees(old(Contents()), namespace, routingKey, None, None), {subject}), priority)
    {
      if priority < 1 {
        return Refused("priority must be natural");
      }
      if |subject| > MAX_SUBJECT {
        return Refused("Too large subject.");
      }
      if namespace !in namespaces {
        return Refused("Namespace does not exist.");
      }
      if namespaces[namespace].owner != caller {
        return Refused("You are not the owner of that namespace.");
      }
      AddEvent(namespace, routingKey, subject, priority, None, None);
      return Ok(true);
    }

    /** Sends events for all the given objects, unless they go to a legacy exchange. */
    method Refresh(routingKey: string, uuids: seq<string>, exchange: Option<string>, priority: int,
                   only: Option<Uuid>, ownedBy: Option<Owner>) returns (r: Result<seq<string>>)
      requires Valid()
      modifies `events, `drawn
      ensures Valid()
      ensures r.Refused? <==> exchange.Some? && exchange.value != "" && (only.Some? || ownedBy.Some?)
      ensures r.Ok? ==> r.value == uuids
      ensures if exchange.Some? && exchange.value != "" then Contents() == old(Contents())
              else Delivers(old(Contents()), Contents(),
                            SlotsFor(Addressees(old(Contents()), "mo", routingKey, only, ownedBy), Elements(uuids)),
                            priority)
    {
      var legacy := exchange.Some? && exchange.value != "";
      if legacy && (only.Some? || ownedBy.Some?) {
        return Refused("listener/owner and exchange are mutually exclusive.");
      }
      if !legacy {
        ghost var to := Addressees(Contents(), "mo", routingKey, only, ownedBy);
        ghost var done := {};
        DeliversNothing(Contents(), priority);
        for i := 0 to |uuids|
          invariant Valid() && listeners == old(listeners)
          invariant done == SlotsFor(to, Elements(uuids[..i]))
          invariant Delivers(old(Contents()), Contents(), done, priority)
        {
          ghost var before := Contents();
          AddEvent("mo", routingKey, uuids[i], priority, only, ownedBy);
          ghost var sent := SlotsFor(to, {uuids[i]});
          DeliversCompose(old(Contents()), before, Contents(), done, sent, priority);
          ElementsMore(uuids, i);
          done := done + sent;
        }
        assert uuids[..|uuids|] == uuids;
      }
      return Ok(uuids);
    }

    /** Finds the first eligible row that nobody else holds locked. */
    method PickEvent(caller: Owner, listener: Uuid, now: Time, locked: set<Uuid>) returns (picked: Option<Uuid>)
      ensures Picks(Contents(), caller, listener, now, locked, picked)
    {
      picked := None;
      var todo := events.Keys;
      while todo != {}
        invariant todo <= events.Keys
        invariant picked.Some? ==> Eligible(Contents(), caller, listener, now, locked, picked.value)
        invariant forall q :: q !in todo && Eligible(Contents(), caller, listener, now, locked, q) ==>
          picked.Some? && NotAfter(events[picked.value], events[q])
        decreases |todo|
      {
        var pk :| pk in todo;
        todo := todo - {pk};
        var e := events[pk];
        if pk !in locked && e.listener == listener && listener in listeners && listeners[listener].owner == caller
          && e.lastTried < now - Backoff(e.fetchedCount)
          && (picked.None? || !NotAfter(events[picked.value], e)) {
          picked := Some(pk);
        }
      }
    }

    /** Hands out the picked event and marks it tried. */
    method EventFetch(caller: Owner, listener: Uuid, now: Time, locked: set<Uuid>)
        returns (r: Option<FetchedEvent>, picked: Option<Uuid>)
      requires Valid()
      modifies `events
      ensures Valid() && Picks(old(Contents()), caller, listener, now, locked, picked)
      ensures Contents() == Fetched(old(Contents()), picked, now)
      ensures r.Some? <==> picked.Some?
      ensures r.Some? ==> var e := old(events)[picked.value];
        r.value == FetchedEvent(e.subject, e.priority, Token(picked.value, e.generation))
    {
      picked := PickEvent(caller, listener, now, locked);
      r := None;
      if picked.Some? {
        var e := events[picked.value];
        ghost var t := Contents();
        events := events[picked.value := e.(lastTried := now, fetchedCount := e.fetchedCount + 1)];
        EditSound(t, Contents());
        r := Some(FetchedEvent(e.subject, e.priority, Token(picked.value, e.generation)));
      }
    }

    /** Removes the event if the token is still current and the listener the caller's. */
    method EventAcknowledge(caller: Owner, token: Token) returns (counted: bool)
      requires Valid()
      modifies `events
      ensures Valid() && Contents() == Acknowledged(old(Contents()), caller, token)
      ensures counted <==> |events| < |old(events)|
    {
      AcknowledgedSound(Contents(), caller, token);
      counted := false;
      if token.uuid in events && events[token.uuid].listener in listeners {
        var listener := listeners[events[token.uuid].listener];
        if events[token.uuid].generation == token.generation && listener.owner == caller {
          ghost var before := events;
          events := events - {token.uuid};
          assert events.Keys == before.Keys - {token.uuid};
          counted := true;
        }
      }
    }

    method EventSilence(only: ListenerFilter, subjects: seq<string>)
      requires Valid()
      modifies `events
      ensures Valid()
      ensures Contents() == Silenced(old(Contents()),
                                     Selected(old(Contents()), EventFilter(Some(only), Some(subjects), None, None)))
    {
      ghost var t := Contents();
      var pks := Selected(Contents(), EventFilter(Some(only), Some(subjects), None, None));
      events := map pk | pk in events :: if pk in pks then events[pk].(silenced := true) else events[pk];
      EditSound(t, Contents());
    }

    /** Unsilencing overrides the backoff, so that the event is retried immediately. */
    method EventUnsilence(only: Option<ListenerFilter>, subjects: Option<seq<string>>, priorities: Option<seq<int>>)
      requires Valid()
      modifies `events
      ensures Valid()
      ensures Contents() == Unsilenced(old(Contents()),
                                       Selected(old(Contents()), EventFilter(only, subjects, priorities, None)))
    {
      ghost var t := Contents();
      var pks := Selected(Contents(), EventFilter(only, subjects, priorities, Some(true)));
      events := map pk | pk in events ::
        if pk in pks then events[pk].(silenced := false, lastTried := EPOCH) else events[pk];
      UnsilencedOnlySilenced(t, EventFilter(only, subjects, priorities, None));
      assert Contents() == Unsilenced(t, pks);
      EditSound(t, Contents());
    }

    method EventRerun(f: EventFilter) returns (rerun: set<Uuid>)
      requires Valid()
      modifies `events
      ensures Valid() && rerun == Selected(old(Contents()), f) && Contents() == Rerun(old(Contents()), rerun)
    {
      ghost var t := Contents();
      rerun := Selected(Contents(), f);
      events := map pk | pk in events :: if pk in rerun then events[pk].(lastTried := EPOCH) else events[pk];
      EditSound(t, Contents());
    }

    /** The event for one row found, on top of those for the rows `done`. */
    method AddFound(f: (string, string), ghost t: Tables, ghost done: set<(string, string)>)
      requires Valid() && AllDrawn(t) && listeners == t.listeners
      requires Delivers(t, Contents(), SlotsFound(t, done), DEFAULT_PRIORITY)
      modifies `events, `drawn
      ensures Valid() && Delivers(t, Contents(), SlotsFound(t, done + {f}), DEFAULT_PRIORITY)
    {
      ghost var before := Contents();
      AddEvent("mo", f.0, f.1, DEFAULT_PRIORITY, None, None);
      DeliversCompose(t, before, Contents(), SlotsFound(t, done),
                      SlotsFor(Addressees(t, "mo", f.0, None, None), {f.1}), DEFAULT_PRIORITY);
      SlotsFoundMore(t, done, f);
    }

    /** The sending half of an emitter run: one event for each row of the query's
        result, then the new last run's time. If publishing any message raises, the
        transaction rolls back; only the UUIDs drawn are gone. */
    method EmitEvents(found: seq<(string, string)>, now: Time, unpublishable: set<(string, string)>)
        returns (committed: bool)
      requires Valid()
      modifies `events, `drawn, `lastRun
      ensures Valid()
      ensures committed <==> forall f :: f in found ==> f !in unpublishable
      ensures committed ==> lastRun == now
      ensures committed ==>
        Delivers(old(Contents()), Contents(), SlotsFound(old(Contents()), Elements(found)), DEFAULT_PRIORITY)
      ensures !committed ==> lastRun == old(lastRun) && Contents() == old(Contents()).(drawn := drawn)
    {
      ghost var t := Contents();
      var saved := events;
      DeliversNothing(t, DEFAULT_PRIORITY);
      for i := 0 to |found|
        invariant Valid() && lastRun == old(lastRun) && listeners == t.listeners && namespaces == t.namespaces
        invariant Delivers(t, Contents(), SlotsFound(t, Elements(found[..i])), DEFAULT_PRIORITY)
        invariant forall f :: f in found[..i] ==> f !in unpublishable
      {
        if found[i] in unpublishable {
          events := saved;
          RolledBackSound(t, Contents());
          return false;
        }
        AddFound(found[i], t, Elements(found[..i]));
        ElementsMore(found, i);
      }
      assert found[..|found|] == found;
      lastRun := now;
      return true;
    }
  }

  lemma UnsilencedOnlySilenced(t: Tables, f: EventFilter)
    requires f.silenced.None?
    ensures Unsilenced(t, Selected(t, f)) == Unsilenced(t, Selected(t, f.(silenced := Some(true))))
  {
    assert forall pk: Uuid :: pk in t.events && t.events[pk].silenced ==>
      (pk in Selected(t, f) <==> pk in Selected(t, f.(silenced := Some(true))));
  }

  lemma RenewedDelivers(t: Tables, t': Tables, pk: Uuid, priority: int)
    requires Sound(t) && pk in t.events && t' == t.(events := t'.events, drawn := t.drawn + 1)
    requires t'.events == t.events[pk := t.events[pk].(generation := t.drawn, lastTried := EPOCH,
                                                       priority := Min(priority, t.events[pk].priority), fetchedCount := 0)]
    ensures Delivers(t, t', {SlotOf(t.events[pk])}, priority)
  {
    assert pk in t'.events && SlotOf(t'.events[pk]) == SlotOf(t.events[pk]);
    forall other | other in t.events
      ensures other in t'.events && RowAfter(t, t', other, {SlotOf(t.events[pk])}, priority)
    {}
  }

  lemma InsertedDelivers(t: Tables, t': Tables, slot: Slot, pk: Uuid, priority: int)
    requires Sound(t) && !Pending(t, slot) && pk == t.drawn + 1 && t' == t.(events := t'.events, drawn := t.drawn + 2)
    requires t'.events == t.events[pk := Event(slot.listener, slot.subject, priority, t.drawn, EPOCH, 0, false)]
    ensures Delivers(t, t', {slot}, priority)
  {
    assert pk !in t.events;
    assert pk in t'.events && SlotOf(t'.events[pk]) == slot;
    forall other | other in t.events
      ensures other in t'.events && RowAfter(t, t', other, {slot}, priority)
    {
      assert SlotOf(t.events[other]) != slot;
    }
  }

  lemma RolledBackSound(t: Tables, t': Tables)
    requires Sound(t) && t' == t.(drawn := t'.drawn) && t.drawn <= t'.drawn
    ensures Sound(t')
  {}

  lemma NothingSent(t: Tables, subject: string, priority: int)
    ensures Delivers(t, t, SlotsFor({}, {subject}), priority)
  {
    DeliversNothing(t, priority);
    assert SlotsFor({}, {subject}) == {};
  }

  lemma SlotsForMore(listeners: set<Uuid>, l: Uuid, subject: string)
    ensures SlotsFor(listeners + {l}, {subject}) == SlotsFor(listeners, {subject}) + {Slot(l, subject)}
  {}

  lemma FoundListener(t: Tables, pk: Uuid, userKey: string, owner: Owner, namespace: string)
    requires UniqueListeners(t) && pk in t.listeners && Named(t.listeners[pk], userKey, owner, namespace)
    ensures FindListener(t, userKey, owner, namespace) == Some(pk)
  {}
}
