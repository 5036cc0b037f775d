/** The event system as a state machine: the tables, the tokens handed out, the
    bitemporal store, and an emitter whose transaction begins, scans the store,
    adds an event for each row found and commits or fails, with every other
    operation free to happen in between. */
module EventSystem {
  import opened Prelude
  import opened EventTables
  import opened EmitterQuery

  /** The emitter's open transaction. Of the rows found, `done` have been emitted;
      `sent` are the slots this added events to, which nobody else sees yet. */
  datatype EmitterRun =
    | Idle
    | Begun(lo: Time, hi: Time)
    | Scanned(lo: Time, hi: Time, found: set<(string, string)>, done: set<(string, string)>, sent: set<Slot>)

  /** `lastRead` is the latest `now` that an emitter run has read. */
  datatype State = State(
    t: Tables, issued: set<Token>, store: Store, lastRun: Time, lastRead: Time, run: EmitterRun)

  datatype Step =
    | NamespaceDeclare(caller: Owner, name: string, isPublic: bool)
    | NamespaceDelete(name: string)
    | ListenerDeclare(caller: Owner, namespace: string, userKey: string, routingKey: string)
    | ListenerDelete(listener: Uuid, deletePending: bool)
    | Send(caller: Owner, namespace: string, routingKey: string, subject: string, priority: int)
    | Refresh(routingKey: string, subjects: set<string>, priority: int, only: Option<Uuid>, ownedBy: Option<Owner>)
    | Fetch(caller: Owner, listener: Uuid, now: Time, locked: set<Uuid>, picked: Option<Uuid>)
    | Acknowledge(caller: Owner, token: Token)
    | Silence(pks: set<Uuid>)
    | Unsilence(pks: set<Uuid>)
    | RerunEvents(pks: set<Uuid>)
    | Write(subject: string, registration: Registration)
    | Begin(now: Time)
    | Scan
    | Emit(key: string, subject: string)
    | Commit
    | Fail

  // ---- Steps ------------------------------------------------------------

  function SlotsFor(listeners: set<Uuid>, subjects: set<string>): set<Slot> {
    set l, x | l in listeners && x in subjects :: Slot(l, x)
  }

  lemma SlotIsFor(listeners: set<Uuid>, subjects: set<string>, l: Uuid, x: string)
    ensures Slot(l, x) in SlotsFor(listeners, subjects) <==> l in listeners && x in subjects
  {}

  /** The listeners for a row found, as they are when its event is added. */
  function SlotsEmitted(t: Tables, key: string, subject: string): set<Slot> {
    SlotsFor(Addressees(t, "mo", key, None, None), {subject})
  }

  /** The slots of all events an emitter run adds if no listener comes or goes meanwhile. */
  function SlotsFound(t: Tables, found: set<(string, string)>): set<Slot> {
    set f, l | f in found && l in Addressees(t, "mo", f.0, None, None) :: Slot(l, f.1)
  }

  /** The slots a step sends an event to. What an emitter run added becomes visible
      when it commits, for the listeners that still exist. A refresh sends to one
      object after the other; what happens in between splits it into several steps. */
  function SlotsSent(s: State, a: Step): set<Slot> {
    match a
    case Send(caller, namespace, routingKey, subject, priority) =>
      if SendRefusal(s.t, caller, namespace, subject, priority).Some? then {}
      else SlotsFor(Addressees(s.t, namespace, routingKey, None, None), {subject})
    case Refresh(routingKey, subjects, priority, only, ownedBy) =>
      SlotsFor(Addressees(s.t, "mo", routingKey, only, ownedBy), subjects)
    case Commit => if s.run.Scanned? then set slot | slot in s.run.sent && slot.listener in s.t.listeners else {}
    case _ => {}
  }

  function PrioritySent(a: Step): int {
    if a.Send? || a.Refresh? then a.priority else DEFAULT_PRIORITY
  }

  function HistoryOf(s: State, o: string): History { if o in s.store then s.store[o] else [] }

  /** The token a fetch returns, if it returns one. */
  function TokenReturned(s: State, a: Step): Option<Token> {
    if a.Fetch? && a.picked.Some? && a.picked.value in s.t.events then Some(TokenOf(s.t, a.picked.value)) else None
  }

  ghost predicate Next(s: State, a: Step, s': State) {
    match a
    case NamespaceDeclare(caller, name, isPublic) => s' == s.(t := DeclareNamespace(s.t, caller, name, isPublic).0)
    case NamespaceDelete(name) => s' == s.(t := DeleteNamespace(s.t, name).0)
    case ListenerDeclare(caller, namespace, userKey, routingKey) =>
      s' == s.(t := DeclareListener(s.t, caller, namespace, userKey, routingKey).0)
    case ListenerDelete(listener, deletePending) => s' == s.(t := DeleteListener(s.t, listener, deletePending).0)
    case Send(_, _, _, _, _) => s' == s.(t := s'.t) && Delivers(s.t, s'.t, SlotsSent(s, a), PrioritySent(a))
    case Refresh(_, _, _, _, _) => s' == s.(t := s'.t) && Delivers(s.t, s'.t, SlotsSent(s, a), PrioritySent(a))
    case Fetch(caller, listener, now, locked, picked) =>
      && Picks(s.t, caller, listener, now, locked, picked)
      && s' == s.(t := Fetched(s.t, picked, now),
                  issued := s.issued + if picked.Some? then {TokenOf(s.t, picked.value)} else {})
    case Acknowledge(caller, token) => token in s.issued && s' == s.(t := Acknowledged(s.t, caller, token))
    case Silence(pks) => s' == s.(t := Silenced(s.t, pks))
    case Unsilence(pks) => s' == s.(t := Unsilenced(s.t, pks))
    case RerunEvents(pks) => s' == s.(t := Rerun(s.t, pks))
    case Write(o, r) =>
      && Wellformed(HistoryOf(s, o) + [r])
      && s' == s.(store := s.store[o := HistoryOf(s, o) + [r]])
    case Begin(now) => s.run.Idle? && s.lastRead <= now && s' == s.(run := Begun(s.lastRun, now), lastRead := now)
    case Scan =>
      s.run.Begun? && s' == s.(run := Scanned(s.run.lo, s.run.hi, Query(s.store, s.run.lo, s.run.hi), {}, {}))
    case Emit(key, subject) =>
      && s.run.Scanned? && (key, subject) in s.run.found - s.run.done
      && s' == s.(run := s.run.(done := s.run.done + {(key, subject)},
                                sent := s.run.sent + SlotsEmitted(s.t, key, subject)))
    case Commit =>
      && s.run.Scanned? && s.run.done == s.run.found
      && s' == s.(t := s'.t, lastRun := s.run.hi, run := Idle)
      && Delivers(s.t, s'.t, SlotsSent(s, a), PrioritySent(a))
    case Fail => !s.run.Idle? && s' == s.(run := Idle)
  }

  /** A start without pending events; listeners and objects may exist already. */
  ghost predicate Initial(s: State) {
    && Sound(s.t) && s.t.events == map[] && s.issued == {}
    && (forall o :: o in s.store ==> Wellformed(s.store[o]))
    && s.lastRun <= s.lastRead && s.run.Idle?
  }

  datatype Run = Run(states: seq<State>, steps: seq<Step>)

  ghost predicate StepAt(r: Run, i: nat) {
    i < |r.steps| && i + 1 < |r.states| && Next(r.states[i], r.steps[i], r.states[i + 1])
  }

  /** A finite run of the system, in any interleaving. */
  ghost predicate IsRun(r: Run) {
    && |r.states| == |r.steps| + 1 && Initial(r.states[0])
    && forall i: nat :: i < |r.steps| ==> StepAt(r, i)
  }

  // ---- The invariant ----------------------------------------------------

  ghost predicate Inv(s: State) {
    && Sound(s.t)
    && (forall k :: k in s.issued ==> k.generation < s.t.drawn)
    && (forall o :: o in s.store ==> Wellformed(s.store[o]))
    && s.lastRun <= s.lastRead
    && (!s.run.Idle? ==> s.run.lo == s.lastRun <= s.run.hi <= s.lastRead)
  }

  lemma NamespaceDeclareSound(t: Tables, caller: Owner, name: string, isPublic: bool)
    requires Sound(t)
    ensures Sound(DeclareNamespace(t, caller, name, isPublic).0)
  {}

  lemma NamespaceDeleteSound(t: Tables, name: string)
    requires Sound(t)
    ensures Sound(DeleteNamespace(t, name).0)
  {}

  lemma ListenerDeclareSound(t: Tables, caller: Owner, namespace: string, userKey: string, routingKey: string)
    requires Sound(t)
    ensures Sound(DeclareListener(t, caller, namespace, userKey, routingKey).0)
  {
    var t' := DeclareListener(t, caller, namespace, userKey, routingKey).0;
    if t' != t {
      NewListenerSound(t, Listener(userKey, caller, routingKey, namespace));
    }
  }

  lemma NewListenerSound(t: Tables, l: Listener)
    requires Sound(t) && l.namespace in t.namespaces
    requires t.namespaces[l.namespace].isPublic || t.namespaces[l.namespace].owner == l.owner
    requires forall pk :: pk in t.listeners ==> !Named(t.listeners[pk], l.userKey, l.owner, l.namespace)
    ensures Sound(t.(listeners := t.listeners[t.drawn := l], drawn := t.drawn + 1))
  {
    var t' := t.(listeners := t.listeners[t.drawn := l], drawn := t.drawn + 1);
    assert t.drawn !in t.listeners;
    forall p, q | p in t'.listeners && q in t'.listeners
      && Named(t'.listeners[p], t'.listeners[q].userKey, t'.listeners[q].owner, t'.listeners[q].namespace)
      ensures p == q
    {
      assert p == t.drawn || t'.listeners[p] == t.listeners[p];
      assert q == t.drawn || t'.listeners[q] == t.listeners[q];
    }
    assert ForeignKeys(t');
    assert Admitted(t');
  }

  lemma ListenerDeleteSound(t: Tables, listener: Uuid, deletePending: bool)
    requires Sound(t)
    ensures Sound(DeleteListener(t, listener, deletePending).0)
  {}

  /** Editing rows in place keeps the tables sound if slots and generations stay. */
  lemma EditSound(t: Tables, t': Tables)
    requires Sound(t) && t' == t.(events := t'.events) && t'.events.Keys == t.events.Keys
    requires forall pk :: pk in t.events ==>
      SlotOf(t'.events[pk]) == SlotOf(t.events[pk]) && t'.events[pk].generation == t.events[pk].generation
    ensures Sound(t')
  {}

  lemma AcknowledgedSound(t: Tables, caller: Owner, token: Token)
    requires Sound(t)
    ensures Sound(Acknowledged(t, caller, token))
  {}

  lemma SentSound(s: State, a: Step, s': State)
    requires Sound(s.t) && Delivers(s.t, s'.t, SlotsSent(s, a), PrioritySent(a))
    ensures Sound(s'.t)
  {
    assert forall slot :: slot in SlotsSent(s, a) ==> slot.listener in s.t.listeners;
    DeliversSound(s.t, s'.t, SlotsSent(s, a), PrioritySent(a));
  }

  /** Every step keeps the tables sound, the registry invariant among it. */
  lemma StepKeepsSound(s: State, a: Step, s': State)
    requires Sound(s.t) && Next(s, a, s')
    ensures Sound(s'.t)
  {
    match a
    case NamespaceDeclare(caller, name, isPublic) => NamespaceDeclareSound(s.t, caller, name, isPublic);
    case NamespaceDelete(name) => NamespaceDeleteSound(s.t, name);
    case ListenerDeclare(caller, namespace, userKey, routingKey) =>
      ListenerDeclareSound(s.t, caller, namespace, userKey, routingKey);
    case ListenerDelete(listener, deletePending) => ListenerDeleteSound(s.t, listener, deletePending);
    case Send(_, _, _, _, _) => SentSound(s, a, s');
    case Refresh(_, _, _, _, _) => SentSound(s, a, s');
    case Commit => SentSound(s, a, s');
    case Acknowledge(caller, token) => AcknowledgedSound(s.t, caller, token);
    case Fetch(_, _, _, _, picked) => EditSound(s.t, s'.t);
    case Silence(pks) => EditSound(s.t, s'.t);
    case Unsilence(pks) => EditSound(s.t, s'.t);
    case RerunEvents(pks) => EditSound(s.t, s'.t);
    case _ => assert s'.t == s.t;
  }

  lemma DrawnGrows(s: State, a: Step, s': State)
    requires Next(s, a, s')
    ensures s.t.drawn <= s'.t.drawn
  {}

  lemma StepKeepsInv(s: State, a: Step, s': State)
    requires Inv(s) && Next(s, a, s')
    ensures Inv(s') && s.t.drawn <= s'.t.drawn && s.lastRead <= s'.lastRead && s.lastRun <= s'.lastRun
  {
    StepKeepsSound(s, a, s');
    DrawnGrows(s, a, s');
    assert forall o :: o in s'.store ==> Wellformed(s'.store[o]);
  }

  lemma {:induction false} RunKeepsInv(r: Run, i: nat, j: nat)
    requires IsRun(r) && i <= j <= |r.steps|
    ensures Inv(r.states[i]) && Inv(r.states[j])
    ensures r.states[i].t.drawn <= r.states[j].t.drawn
    ensures r.states[i].lastRead <= r.states[j].lastRead && r.states[i].lastRun <= r.states[j].lastRun
    decreases j, i
  {
    if i < j {
      RunKeepsInv(r, i, j - 1);
      assert StepAt(r, j - 1);
      StepKeepsInv(r.states[j - 1], r.steps[j - 1], r.states[j]);
    } else if i > 0 {
      RunKeepsInv(r, i - 1, i - 1);
      assert StepAt(r, i - 1);
      StepKeepsInv(r.states[i - 1], r.steps[i - 1], r.states[i]);
    }
  }

  /** UUIDs in use were drawn, and draws only accumulate. */
  lemma RunDraws(r: Run, i: nat, j: nat)
    requires IsRun(r) && i <= j <= |r.steps|
    ensures AllDrawn(r.states[i].t) && r.states[i].t.drawn <= r.states[j].t.drawn
    ensures forall k :: k in r.states[i].issued ==> k.generation < r.states[i].t.drawn
  {
    RunKeepsInv(r, i, j);
  }

  lemma RunStep(r: Run, i: nat)
    requires IsRun(r) && i < |r.steps|
    ensures Next(r.states[i], r.steps[i], r.states[i + 1])
  {
    assert StepAt(r, i);
  }

  /** Emitted without interruption, the rows found go to just the listeners of that
      moment: from the first to the last, what was sent is what was found so far. */
  lemma EmittedTogether(s: State, key: string, subject: string, s': State)
    requires Next(s, Emit(key, subject), s') && s.run.sent == SlotsFound(s.t, s.run.done)
    ensures s'.t == s.t && s'.run.sent == SlotsFound(s'.t, s'.run.done)
    ensures s'.run.done == s'.run.found ==> SlotsSent(s', Commit) == SlotsFound(s'.t, s'.run.found)
  {
    SlotsFoundMore(s.t, s.run.done, (key, subject));
  }

  lemma SlotsFoundMore(t: Tables, found: set<(string, string)>, f: (string, string))
    ensures SlotsFound(t, found + {f}) == SlotsFound(t, found) + SlotsEmitted(t, f.0, f.1)
  {}

  // ---- What a step does to one row -----------------------------------------

  predicate Sends(a: Step) { a.Send? || a.Refresh? || a.Commit? }

  /** The row edits of steps that do not send. */
  ghost predicate Edited(a: Step, pk: Uuid, e: Event, e': Event) {
    match a
    case Fetch(_, _, now, _, picked) =>
      e' == if picked == Some(pk) then e.(lastTried := now, fetchedCount := e.fetchedCount + 1) else e
    case Silence(pks) => e' == if pk in pks then e.(silenced := true) else e
    case Unsilence(pks) => e' == if pk in pks && e.silenced then e.(silenced := false, lastTried := EPOCH) else e
    case RerunEvents(pks) => e' == if pk in pks then e.(lastTried := EPOCH) else e
    case _ => e' == e
  }

  /** The fate of one row in a step. */
  ghost predicate RowFate(s: State, a: Step, s': State, pk: Uuid) {
    && (pk in s.t.events && pk in s'.t.events ==>
        if Sends(a) then RowAfter(s.t, s'.t, pk, SlotsSent(s, a), PrioritySent(a))
        else Edited(a, pk, s.t.events[pk], s'.t.events[pk]))
    && (pk in s.t.events && pk !in s'.t.events ==>
        || (a.Acknowledge? && a.token == TokenOf(s.t, pk) && Redeems(s.t, a.caller, a.token))
        || a == ListenerDelete(s.t.events[pk].listener, true))
    && (pk !in s.t.events && pk in s'.t.events ==>
        Sends(a) && RowAdded(s.t, s'.t, pk, SlotsSent(s, a), PrioritySent(a)))
  }

  lemma SendingRowFate(s: State, a: Step, s': State, pk: Uuid)
    requires Next(s, a, s') && Sends(a)
    ensures RowFate(s, a, s', pk)
  {
    assert Delivers(s.t, s'.t, SlotsSent(s, a), PrioritySent(a));
  }

  lemma RemovingRowFate(s: State, a: Step, s': State, pk: Uuid)
    requires Next(s, a, s') && (a.Acknowledge? || a.ListenerDelete?)
    ensures RowFate(s, a, s', pk)
  {}

  lemma EditingRowFate(s: State, a: Step, s': State, pk: Uuid)
    requires Next(s, a, s') && (a.Fetch? || a.Silence? || a.Unsilence? || a.RerunEvents?)
    ensures RowFate(s, a, s', pk)
  {}

  lemma StepRowFate(s: State, a: Step, s': State, pk: Uuid)
    requires Next(s, a, s')
    ensures RowFate(s, a, s', pk)
  {
    match a
    case Send(_, _, _, _, _) => SendingRowFate(s, a, s', pk);
    case Refresh(_, _, _, _, _) => SendingRowFate(s, a, s', pk);
    case Commit => SendingRowFate(s, a, s', pk);
    case Acknowledge(_, _) => RemovingRowFate(s, a, s', pk);
    case ListenerDelete(_, _) => RemovingRowFate(s, a, s', pk);
    case Fetch(_, _, _, _, _) => EditingRowFate(s, a, s', pk);
    case Silence(_) => EditingRowFate(s, a, s', pk);
    case Unsilence(_) => EditingRowFate(s, a, s', pk);
    case RerunEvents(_) => EditingRowFate(s, a, s', pk);
    case _ => assert s'.t.events == s.t.events;
  }

  lemma RunRowFate(r: Run, i: nat, pk: Uuid)
    requires IsRun(r) && i < |r.steps|
    ensures RowFate(r.states[i], r.steps[i], r.states[i + 1], pk)
  {
    RunStep(r, i);
    StepRowFate(r.states[i], r.steps[i], r.states[i + 1], pk);
  }
}
