/** The three tables of the event system and what each operation does to them. */
module EventTables {
  import opened Prelude

  /** Values handed out by the UUID generator: every draw is a number that was
      never drawn before. */
  type Uuid = nat

  /** The identity of an authenticated user. */
  type Owner = nat

  const SECOND: Time := 1_000_000
  const EPOCH: Time := 0
  const DEFAULT_PRIORITY := 10000
  const MAX_SUBJECT := 220

  datatype Namespace = Namespace(owner: Owner, isPublic: bool)

  datatype Listener = Listener(userKey: string, owner: Owner, routingKey: string, namespace: string)

  datatype Event = Event(
    listener: Uuid, subject: string, priority: int, generation: Uuid,
    lastTried: Time, fetchedCount: nat, silenced: bool)

  datatype Token = Token(uuid: Uuid, generation: Uuid)

  /** What the unique constraint of the event table is about. */
  datatype Slot = Slot(listener: Uuid, subject: string)

  /** `drawn` is the number of UUIDs drawn so far. */
  datatype Tables = Tables(
    namespaces: map<string, Namespace>,
    listeners: map<Uuid, Listener>,
    events: map<Uuid, Event>,
    drawn: nat)

  function SlotOf(e: Event): Slot { Slot(e.listener, e.subject) }

  /** A row for the slot exists. */
  ghost predicate Pending(t: Tables, slot: Slot) {
    exists pk :: pk in t.events && SlotOf(t.events[pk]) == slot
  }

  // ---- Integrity --------------------------------------------------------

  ghost predicate UniqueSlots(t: Tables) {
    forall p, q :: p in t.events && q in t.events && SlotOf(t.events[p]) == SlotOf(t.events[q]) ==> p == q
  }

  ghost predicate UniqueListeners(t: Tables) {
    forall p, q :: p in t.listeners && q in t.listeners
      && Named(t.listeners[p], t.listeners[q].userKey, t.listeners[q].owner, t.listeners[q].namespace)
      ==> p == q
  }

  ghost predicate ForeignKeys(t: Tables) {
    && (forall pk :: pk in t.events ==> t.events[pk].listener in t.listeners)
    && (forall pk :: pk in t.listeners ==> t.listeners[pk].namespace in t.namespaces)
  }

  /** A listener stands in a namespace that is public or its owner's own. */
  ghost predicate Admitted(t: Tables) {
    forall pk :: pk in t.listeners && t.listeners[pk].namespace in t.namespaces ==>
      var ns := t.namespaces[t.listeners[pk].namespace];
      ns.isPublic || ns.owner == t.listeners[pk].owner
  }

  ghost predicate AllDrawn(t: Tables) {
    && (forall pk :: pk in t.events ==> pk < t.drawn && t.events[pk].generation < t.drawn)
    && (forall pk :: pk in t.listeners ==> pk < t.drawn)
  }

  ghost predicate Sound(t: Tables) {
    UniqueSlots(t) && UniqueListeners(t) && ForeignKeys(t) && Admitted(t) && AllDrawn(t)
  }

  // ---- Sending ----------------------------------------------------------

  /** The listeners a send is addressed to. */
  function Addressees(t: Tables, namespace: string, routingKey: string,
                      only: Option<Uuid>, ownedBy: Option<Owner>): set<Uuid>
  {
    set pk | pk in t.listeners
      && t.listeners[pk].namespace == namespace && t.listeners[pk].routingKey == routingKey
      && (only.Some? ==> pk == only.value)
      && (ownedBy.Some? ==> t.listeners[pk].owner == ownedBy.value)
  }

  /** A row of an addressed slot: a new generation, due at once, never fetched. */
  ghost predicate Renewed(e: Event, t: Tables, t': Tables) {
    t.drawn <= e.generation < t'.drawn && e.lastTried == EPOCH && e.fetchedCount == 0
  }

  /** Sending with priority `p` to each slot of `slots` takes `t` to `t'`. */
  ghost predicate Delivers(t: Tables, t': Tables, slots: set<Slot>, p: int) {
    && t'.namespaces == t.namespaces && t'.listeners == t.listeners && t.drawn <= t'.drawn
    // Existing rows stay; those addressed are renewed, the others untouched.
    && (forall pk :: pk in t.events ==> pk in t'.events && RowAfter(t, t', pk, slots, p))
    // New rows are those of addressed slots that had none.
    && (forall pk :: pk in t'.events && pk !in t.events ==> RowAdded(t, t', pk, slots, p))
    && NewSlotsUnique(t, t')
    && (forall slot :: slot in slots ==> Pending(t', slot))
  }

  ghost predicate NewSlotsUnique(t: Tables, t': Tables) {
    forall a, b | a in t'.events && b in t'.events && a !in t.events && b !in t.events ::
      SlotOf(t'.events[a]) == SlotOf(t'.events[b]) ==> a == b
  }

  ghost predicate RowAfter(t: Tables, t': Tables, pk: Uuid, slots: set<Slot>, p: int)
    requires pk in t.events && pk in t'.events
  {
    var e, e' := t.events[pk], t'.events[pk];
    if SlotOf(e) in slots then
      && SlotOf(e') == SlotOf(e) && e'.silenced == e.silenced
      && e'.priority == Min(e.priority, p) && Renewed(e', t, t')
    else
      e' == e
  }

  ghost predicate RowAdded(t: Tables, t': Tables, pk: Uuid, slots: set<Slot>, p: int)
    requires pk in t'.events
  {
    var e' := t'.events[pk];
    && t.drawn <= pk < t'.drawn && SlotOf(e') in slots && !Pending(t, SlotOf(e'))
    && e'.priority == p && !e'.silenced && Renewed(e', t, t')
  }

  lemma DeliversNothing(t: Tables, p: int)
    ensures Delivers(t, t, {}, p)
  {}

  /** Sends compose: two sends of one priority amount to one to both sets of slots. */
  lemma DeliversCompose(t0: Tables, t1: Tables, t2: Tables, a: set<Slot>, b: set<Slot>, p: int)
    requires Delivers(t0, t1, a, p) && Delivers(t1, t2, b, p)
    requires AllDrawn(t0)
    ensures Delivers(t0, t2, a + b, p)
  {
    forall pk | pk in t0.events
      ensures pk in t2.events && RowAfter(t0, t2, pk, a + b, p)
    {
      assert RowAfter(t0, t1, pk, a, p) && RowAfter(t1, t2, pk, b, p);
    }
    forall pk | pk in t2.events && pk !in t0.events
      ensures RowAdded(t0, t2, pk, a + b, p)
    {
      AddedCompose(t0, t1, t2, a, b, p, pk);
    }
    forall x, y | x in t2.events && y in t2.events && x !in t0.events && y !in t0.events
      ensures SlotOf(t2.events[x]) == SlotOf(t2.events[y]) ==> x == y
    {
      NewInEither(t0, t1, t2, a, b, p, x);
      NewInEither(t0, t1, t2, a, b, p, y);
    }
    PendingKept(t1, t2, b, p);
  }

  lemma AddedCompose(t0: Tables, t1: Tables, t2: Tables, a: set<Slot>, b: set<Slot>, p: int, pk: Uuid)
    requires Delivers(t0, t1, a, p) && Delivers(t1, t2, b, p)
    requires AllDrawn(t0) && pk in t2.events && pk !in t0.events
    ensures RowAdded(t0, t2, pk, a + b, p)
  {
    if pk in t1.events {
      assert RowAdded(t0, t1, pk, a, p) && RowAfter(t1, t2, pk, b, p);
    } else {
      assert RowAdded(t1, t2, pk, b, p);
      PendingKept(t0, t1, a, p);
    }
  }

  lemma NewInEither(t0: Tables, t1: Tables, t2: Tables, a: set<Slot>, b: set<Slot>, p: int, pk: Uuid)
    requires Delivers(t0, t1, a, p) && Delivers(t1, t2, b, p)
    requires pk in t2.events
    ensures pk in t1.events ==> SlotOf(t2.events[pk]) == SlotOf(t1.events[pk])
    ensures pk !in t1.events ==> !Pending(t1, SlotOf(t2.events[pk]))
  {
    if pk in t1.events {
      assert RowAfter(t1, t2, pk, b, p);
    } else {
      assert RowAdded(t1, t2, pk, b, p);
    }
  }

  lemma PendingKept(t: Tables, t': Tables, slots: set<Slot>, p: int)
    requires Delivers(t, t', slots, p)
    ensures forall slot :: Pending(t, slot) ==> Pending(t', slot)
  {
    forall slot | Pending(t, slot)
      ensures Pending(t', slot)
    {
      var pk :| pk in t.events && SlotOf(t.events[pk]) == slot;
      assert RowAfter(t, t', pk, slots, p);
      assert pk in t'.events && SlotOf(t'.events[pk]) == slot;
    }
  }

  // ---- Fetching ---------------------------------------------------------

  function Pow2(n: nat): (r: nat)
    ensures r >= 1
  {
    if n == 0 then 1 else 2 * Pow2(n - 1)
  }

  /** How long a row that was fetched `count` times stays withheld. */
  function Backoff(count: nat): Time {
    Max(180 * SECOND, Min(Pow2(Min(count, 32)) * SECOND, 17 * 3600 * SECOND))
  }

  ghost predicate Eligible(t: Tables, caller: Owner, listener: Uuid, now: Time, locked: set<Uuid>, pk: Uuid) {
    && pk in t.events && pk !in locked
    && t.events[pk].listener == listener
    && listener in t.listeners && t.listeners[listener].owner == caller
    && t.events[pk].lastTried < now - Backoff(t.events[pk].fetchedCount)
  }

  /** Unsilenced rows come first, then low priority numbers, then few fetches. */
  predicate NotAfter(a: Event, b: Event) {
    if a.silenced != b.silenced then b.silenced
    else if a.priority != b.priority then a.priority < b.priority
    else a.fetchedCount <= b.fetchedCount
  }

  ghost predicate Picks(t: Tables, caller: Owner, listener: Uuid, now: Time, locked: set<Uuid>, picked: Option<Uuid>) {
    match picked
    case None => forall pk :: !Eligible(t, caller, listener, now, locked, pk)
    case Some(pk) =>
      && Eligible(t, caller, listener, now, locked, pk)
      && forall q :: Eligible(t, caller, listener, now, locked, q) ==> NotAfter(t.events[pk], t.events[q])
  }

  function Fetched(t: Tables, picked: Option<Uuid>, now: Time): Tables
    requires picked.Some? ==> picked.value in t.events
  {
    if picked.None? then t else
    var e := t.events[picked.value];
    t.(events := t.events[picked.value := e.(lastTried := now, fetchedCount := e.fetchedCount + 1)])
  }

  function TokenOf(t: Tables, pk: Uuid): Token
    requires pk in t.events
  {
    Token(pk, t.events[pk].generation)
  }

  // ---- Acknowledging and maintenance -------------------------------------

  /** The acknowledgement removes a row: primary key and generation of the token
      are current and the caller owns the listener. */
  predicate Redeems(t: Tables, caller: Owner, token: Token) {
    && token.uuid in t.events
    && t.events[token.uuid].generation == token.generation
    && t.events[token.uuid].listener in t.listeners
    && t.listeners[t.events[token.uuid].listener].owner == caller
  }

  function Acknowledged(t: Tables, caller: Owner, token: Token): Tables {
    if Redeems(t, caller, token) then t.(events := t.events - {token.uuid}) else t
  }

  function Silenced(t: Tables, pks: set<Uuid>): Tables {
    t.(events := map pk | pk in t.events ::
      if pk in pks then t.events[pk].(silenced := true) else t.events[pk])
  }

  /** Only silenced rows are unsilenced, and those become due at once. */
  function Unsilenced(t: Tables, pks: set<Uuid>): Tables {
    t.(events := map pk | pk in t.events ::
      if pk in pks && t.events[pk].silenced
      then t.events[pk].(silenced := false, lastTried := EPOCH) else t.events[pk])
  }

  function Rerun(t: Tables, pks: set<Uuid>): Tables {
    t.(events := map pk | pk in t.events ::
      if pk in pks then t.events[pk].(lastTried := EPOCH) else t.events[pk])
  }

  // ---- Choosing rows for maintenance --------------------------------------

  datatype NamespaceFilter = NamespaceFilter(
    names: Option<seq<string>>, owners: Option<seq<Owner>>, isPublic: Option<bool>)

  datatype ListenerFilter = ListenerFilter(
    uuids: Option<seq<Uuid>>, userKeys: Option<seq<string>>, owners: Option<seq<Owner>>,
    routingKeys: Option<seq<string>>, namespaces: Option<NamespaceFilter>)

  datatype EventFilter = EventFilter(
    listeners: Option<ListenerFilter>, subjects: Option<seq<string>>,
    priorities: Option<seq<int>>, silenced: Option<bool>)

  /** A condition that is not given excludes nothing; an empty list excludes all. */
  predicate AmongIfGiven<T(==)>(x: T, allowed: Option<seq<T>>) { allowed.Some? ==> x in allowed.value }

  predicate NamespaceSelected(t: Tables, f: NamespaceFilter, name: string) {
    && name in t.namespaces && AmongIfGiven(name, f.names) && AmongIfGiven(t.namespaces[name].owner, f.owners)
    && (f.isPublic.Some? ==> t.namespaces[name].isPublic == f.isPublic.value)
  }

  predicate ListenerSelected(t: Tables, f: ListenerFilter, pk: Uuid)
    requires pk in t.listeners
  {
    var l := t.listeners[pk];
    && AmongIfGiven(pk, f.uuids) && AmongIfGiven(l.userKey, f.userKeys)
    && AmongIfGiven(l.owner, f.owners) && AmongIfGiven(l.routingKey, f.routingKeys)
    && (f.namespaces.Some? ==> NamespaceSelected(t, f.namespaces.value, l.namespace))
  }

  predicate EventSelected(t: Tables, f: EventFilter, pk: Uuid)
    requires pk in t.events
  {
    var e := t.events[pk];
    && e.listener in t.listeners
    && (f.listeners.Some? ==> ListenerSelected(t, f.listeners.value, e.listener))
    && AmongIfGiven(e.subject, f.subjects) && AmongIfGiven(e.priority, f.priorities)
    && (f.silenced.Some? ==> e.silenced == f.silenced.value)
  }

  function Selected(t: Tables, f: EventFilter): set<Uuid> {
    set pk | pk in t.events && EventSelected(t, f, pk)
  }

  // ---- Registry ---------------------------------------------------------

  function DeclareNamespace(t: Tables, caller: Owner, name: string, isPublic: bool): (Tables, Result<Namespace>) {
    var t' := if name in t.namespaces then t
              else t.(namespaces := t.namespaces[name := Namespace(caller, isPublic)]);
    var ns := t'.namespaces[name];
    if ns.owner != caller then (t, Refused("Namespace already claimed by another owner."))
    else if ns.isPublic != isPublic then (t, Refused("Namespace already exists with another visibility."))
    else (t', Ok(ns))
  }

  function DeleteNamespace(t: Tables, name: string): (Tables, Result<bool>) {
    if exists pk :: pk in t.listeners && t.listeners[pk].namespace == name then
      (t, Refused("There are still listeners for this namespace."))
    else
      (t.(namespaces := t.namespaces - {name}), Ok(true))
  }

  predicate Named(l: Listener, userKey: string, owner: Owner, namespace: string) {
    l.userKey == userKey && l.owner == owner && l.namespace == namespace
  }

  ghost function FindListener(t: Tables, userKey: string, owner: Owner, namespace: string): (r: Option<Uuid>)
    ensures match r
            case Some(pk) => pk in t.listeners && Named(t.listeners[pk], userKey, owner, namespace)
            case None => forall pk :: pk in t.listeners ==> !Named(t.listeners[pk], userKey, owner, namespace)
  {
    if exists pk :: pk in t.listeners && Named(t.listeners[pk], userKey, owner, namespace) then
      var pk :| pk in t.listeners && Named(t.listeners[pk], userKey, owner, namespace);
      Some(pk)
    else
      None
  }

  ghost function DeclareListener(t: Tables, caller: Owner, namespace: string, userKey: string,
                                 routingKey: string): (Tables, Result<Uuid>)
  {
    if namespace !in t.namespaces then (t, Refused("Namespace does not exist"))
    else if !t.namespaces[namespace].isPublic && t.namespaces[namespace].owner != caller then
      (t, Refused("Namespace is non-public and you are not the owner."))
    else
      match FindListener(t, userKey, caller, namespace)
      case Some(pk) =>
        if t.listeners[pk].routingKey == routingKey then (t, Ok(pk))
        else (t, Refused("There already exists a listener with this user_key and a different routing_key"))
      case None =>
        var l := Listener(userKey, caller, routingKey, namespace);
        (t.(listeners := t.listeners[t.drawn := l], drawn := t.drawn + 1), Ok(t.drawn))
  }

  function DeleteListener(t: Tables, listener: Uuid, deletePending: bool): (Tables, Result<bool>) {
    if !deletePending && exists pk :: pk in t.events && t.events[pk].listener == listener then
      (t, Refused("There are pending events for this listener."))
    else
      (t.(events := map pk | pk in t.events && t.events[pk].listener != listener :: t.events[pk],
          listeners := t.listeners - {listener}), Ok(true))
  }

  /** Why a send is refused, if it is. */
  function SendRefusal(t: Tables, caller: Owner, namespace: string, subject: string, priority: int): Option<string> {
    if priority < 1 then Some("priority must be natural")
    else if |subject| > MAX_SUBJECT then Some("Too large subject.")
    else if namespace !in t.namespaces then Some("Namespace does not exist.")
    else if t.namespaces[namespace].owner != caller then Some("You are not the owner of that namespace.")
    else None
  }

  // ---- Properties of single operations ------------------------------------

  lemma {:induction false} Pow2Monotone(a: nat, b: nat)
    requires a <= b
    ensures Pow2(a) <= Pow2(b)
  {
    if a < b {
      Pow2Monotone(a, b - 1);
    }
  }

  lemma Pow2Values()
    ensures Pow2(7) == 128 && Pow2(16) == 65536
  {
    assert Pow2(4) == 16;
    assert Pow2(8) == 16 * Pow2(4);
    assert Pow2(12) == 16 * Pow2(8);
    assert Pow2(16) == 16 * Pow2(12);
  }

  /** The delay starts at three minutes, never exceeds seventeen hours, and
      grows with the number of fetches. */
  lemma BackoffBounds(count: nat, more: nat)
    requires count <= more
    ensures 180 * SECOND <= Backoff(count) <= Backoff(more) <= 17 * 3600 * SECOND
  {
    Pow2Monotone(Min(count, 32), Min(more, 32));
  }

  /** The clamp at 32, there to avoid an overflow, never changes the delay. */
  lemma BackoffUnclamped(count: nat)
    ensures Backoff(count) == Max(180 * SECOND, Min(Pow2(count) * SECOND, 17 * 3600 * SECOND))
  {
    if count > 32 {
      var bound: nat := 32;
      Pow2Values();
      Pow2Monotone(16, bound);
      Pow2Monotone(bound, count);
    }
  }

  /** The first seven retries are three minutes apart; the eighth is not. */
  lemma BackoffStart(count: nat)
    ensures Backoff(count) == 180 * SECOND <==> count <= 7
  {
    Pow2Values();
    if count <= 7 {
      Pow2Monotone(count, 7);
    } else {
      assert Pow2(8) == 2 * Pow2(7);
      Pow2Monotone(8, Min(count, 32));
    }
  }

  /** Whatever was fetched before, the row of a slot just sent to can be fetched by its
      listener's owner at once. */
  lemma SentIsDue(t: Tables, t': Tables, slots: set<Slot>, p: int, pk: Uuid, now: Time, locked: set<Uuid>)
    requires Delivers(t, t', slots, p) && pk in t'.events && SlotOf(t'.events[pk]) in slots
    requires t'.events[pk].listener in t'.listeners && pk !in locked && now > EPOCH + 180 * SECOND
    ensures var listener := t'.events[pk].listener;
            Eligible(t', t'.listeners[listener].owner, listener, now, locked, pk)
  {
    assert if pk in t.events then RowAfter(t, t', pk, slots, p) else RowAdded(t, t', pk, slots, p);
    BackoffStart(0);
  }

  /** Silencing leaves it open which rows may be fetched, */
  lemma SilencedStillEligible(t: Tables, pks: set<Uuid>, caller: Owner, listener: Uuid, now: Time, locked: set<Uuid>, pk: Uuid)
    ensures Eligible(Silenced(t, pks), caller, listener, now, locked, pk) <==> Eligible(t, caller, listener, now, locked, pk)
  {}

  /** but a silenced row is fetched only when no eligible row is left unsilenced. */
  lemma SilencedIsFetchedLast(t: Tables, pks: set<Uuid>, caller: Owner, listener: Uuid, now: Time, locked: set<Uuid>, pk: Uuid)
    requires pk in pks && Picks(Silenced(t, pks), caller, listener, now, locked, Some(pk))
    ensures forall q :: Eligible(t, caller, listener, now, locked, q) ==> q in pks || t.events[q].silenced
  {
    var t' := Silenced(t, pks);
    forall q | Eligible(t, caller, listener, now, locked, q)
      ensures q in pks || t.events[q].silenced
    {
      assert Eligible(t', caller, listener, now, locked, q);
      assert NotAfter(t'.events[pk], t'.events[q]);
    }
  }

  /** Silencing leaves open to a fetch just the rows that it could have picked before. */
  ghost predicate SameChoices(t: Tables, pks: set<Uuid>, caller: Owner, listener: Uuid, now: Time, locked: set<Uuid>) {
    forall pk :: Picks(Silenced(t, pks), caller, listener, now, locked, Some(pk))
            <==> Picks(t, caller, listener, now, locked, Some(pk))
  }

  /** By priority and number of fetches, the row comes before the other or level with it. */
  predicate RanksUpTo(a: Event, b: Event) { NotAfter(a.(silenced := false), b.(silenced := false)) }

  /** All eligible rows end up silenced, and those that were before rank after `m`. */
  ghost predicate SilencesAll(t: Tables, pks: set<Uuid>, caller: Owner, listener: Uuid, now: Time, locked: set<Uuid>, m: Uuid)
    requires m in t.events
  {
    forall q :: Eligible(t, caller, listener, now, locked, q) ==>
      if t.events[q].silenced then !RanksUpTo(t.events[q], t.events[m]) else q in pks
  }

  /** With `m` a row that a fetch could pick, silencing does not affect delivery exactly
      if `m` is silenced already, or no row that could be picked is silenced now, or
      all eligible rows end up silenced without making way for one that was before. */
  lemma SilencingHarmlessIff(t: Tables, pks: set<Uuid>, caller: Owner, listener: Uuid, now: Time, locked: set<Uuid>, m: Uuid)
    requires Picks(t, caller, listener, now, locked, Some(m))
    ensures SameChoices(t, pks, caller, listener, now, locked) <==>
      || t.events[m].silenced
      || (forall pk :: Picks(t, caller, listener, now, locked, Some(pk)) ==> pk !in pks)
      || SilencesAll(t, pks, caller, listener, now, locked, m)
  {
    forall pk
      ensures Eligible(Silenced(t, pks), caller, listener, now, locked, pk) <==> Eligible(t, caller, listener, now, locked, pk)
    {
      SilencedStillEligible(t, pks, caller, listener, now, locked, pk);
    }
    if t.events[m].silenced || SilencesAll(t, pks, caller, listener, now, locked, m) {
      AllSilencedSame(t, pks, caller, listener, now, locked, m);
    } else if forall pk :: Picks(t, caller, listener, now, locked, Some(pk)) ==> pk !in pks {
      NoneSilencedSame(t, pks, caller, listener, now, locked, m);
    } else if SameChoices(t, pks, caller, listener, now, locked) {
      SameSilencesAll(t, pks, caller, listener, now, locked, m);
    }
  }

  lemma AllSilencedSame(t: Tables, pks: set<Uuid>, caller: Owner, listener: Uuid, now: Time, locked: set<Uuid>, m: Uuid)
    requires Picks(t, caller, listener, now, locked, Some(m))
    requires t.events[m].silenced || SilencesAll(t, pks, caller, listener, now, locked, m)
    requires forall pk :: Eligible(Silenced(t, pks), caller, listener, now, locked, pk) <==> Eligible(t, caller, listener, now, locked, pk)
    ensures SameChoices(t, pks, caller, listener, now, locked)
  {
    var t' := Silenced(t, pks);
    assert forall q :: Eligible(t, caller, listener, now, locked, q) ==> t'.events[q].silenced;
  }

  lemma NoneSilencedSame(t: Tables, pks: set<Uuid>, caller: Owner, listener: Uuid, now: Time, locked: set<Uuid>, m: Uuid)
    requires Picks(t, caller, listener, now, locked, Some(m)) && !t.events[m].silenced
    requires forall pk :: Picks(t, caller, listener, now, locked, Some(pk)) ==> pk !in pks
    requires forall pk :: Eligible(Silenced(t, pks), caller, listener, now, locked, pk) <==> Eligible(t, caller, listener, now, locked, pk)
    ensures SameChoices(t, pks, caller, listener, now, locked)
  {
    assert m !in pks && Eligible(t, caller, listener, now, locked, m);
  }

  lemma SameSilencesAll(t: Tables, pks: set<Uuid>, caller: Owner, listener: Uuid, now: Time, locked: set<Uuid>, m: Uuid)
    requires Picks(t, caller, listener, now, locked, Some(m)) && !t.events[m].silenced
    requires exists pk :: Picks(t, caller, listener, now, locked, Some(pk)) && pk in pks
    requires forall pk :: Eligible(Silenced(t, pks), caller, listener, now, locked, pk) <==> Eligible(t, caller, listener, now, locked, pk)
    requires SameChoices(t, pks, caller, listener, now, locked)
    ensures SilencesAll(t, pks, caller, listener, now, locked, m)
  {
    var t' := Silenced(t, pks);
    var c :| Picks(t, caller, listener, now, locked, Some(c)) && c in pks;
    assert Picks(t', caller, listener, now, locked, Some(c)) && Picks(t', caller, listener, now, locked, Some(m));
    forall q | Eligible(t, caller, listener, now, locked, q)
      ensures if t.events[q].silenced then !RanksUpTo(t.events[q], t.events[m]) else q in pks
    {
      assert NotAfter(t'.events[c], t'.events[q]);
      if t.events[q].silenced {
        assert !NotAfter(t.events[q], t.events[m]);
        assert !Picks(t, caller, listener, now, locked, Some(q));
        assert RanksUpTo(t.events[q], t.events[m]) ==> Picks(t', caller, listener, now, locked, Some(q));
      }
    }
  }

  /** Two events for one listener of owner 7, the first of the higher priority. */
  function TwoEvents(): Tables {
    Tables(map["mo" := Namespace(7, true)],
           map[0 := Listener("key", 7, "person", "mo")],
           map[1 := Event(0, "a", 1, 2, EPOCH, 0, false), 3 := Event(0, "b", 2, 4, EPOCH, 0, false)],
           5)
  }

  /** Silencing the first changes what is delivered next. */
  lemma SilencingChangesPick(now: Time)
    requires now > EPOCH + 180 * SECOND
    ensures forall picked :: Picks(TwoEvents(), 7, 0, now, {}, picked) <==> picked == Some(1)
    ensures forall picked :: Picks(Silenced(TwoEvents(), {1}), 7, 0, now, {}, picked) <==> picked == Some(3)
  {
    BackoffStart(0);
    var t, t' := TwoEvents(), Silenced(TwoEvents(), {1});
    assert Eligible(t, 7, 0, now, {}, 1) && Eligible(t, 7, 0, now, {}, 3);
    assert Eligible(t', 7, 0, now, {}, 1) && Eligible(t', 7, 0, now, {}, 3);
    assert !NotAfter(t.events[3], t.events[1]) && !NotAfter(t'.events[1], t'.events[3]);
  }

  /** A rerun overrides the backoff, and so does unsilencing what was silenced: once
      the longest delay has passed since the epoch, such a row can be fetched. */
  lemma DueAgain(t: Tables, pks: set<Uuid>, listener: Uuid, now: Time, locked: set<Uuid>, pk: Uuid)
    requires pk in t.events && pk in pks && pk !in locked && now > EPOCH + 17 * 3600 * SECOND
    requires t.events[pk].listener == listener && listener in t.listeners
    ensures Eligible(Rerun(t, pks), t.listeners[listener].owner, listener, now, locked, pk)
    ensures t.events[pk].silenced ==>
      Eligible(Unsilenced(t, pks), t.listeners[listener].owner, listener, now, locked, pk)
  {
    BackoffBounds(t.events[pk].fetchedCount, t.events[pk].fetchedCount);
  }

  /** Every row after a send was there before with the same slot, or is the row
      of an addressed slot that had none. */
  lemma RowOrigin(t: Tables, t': Tables, slots: set<Slot>, p: int, pk: Uuid)
    requires Delivers(t, t', slots, p) && AllDrawn(t) && pk in t'.events
    ensures pk < t'.drawn && t'.events[pk].generation < t'.drawn
    ensures pk in t.events ==> SlotOf(t'.events[pk]) == SlotOf(t.events[pk])
    ensures pk !in t.events ==> SlotOf(t'.events[pk]) in slots && !Pending(t, SlotOf(t'.events[pk]))
  {
    if pk in t.events {
      assert RowAfter(t, t', pk, slots, p);
    } else {
      assert RowAdded(t, t', pk, slots, p);
    }
  }

  /** A send keeps the tables sound if its slots belong to existing listeners. */
  lemma DeliversSound(t: Tables, t': Tables, slots: set<Slot>, p: int)
    requires Sound(t) && Delivers(t, t', slots, p)
    requires forall slot :: slot in slots ==> slot.listener in t.listeners
    ensures Sound(t')
  {
    forall pk | pk in t'.events
      ensures t'.events[pk].listener in t'.listeners && pk < t'.drawn && t'.events[pk].generation < t'.drawn
    {
      RowOrigin(t, t', slots, p, pk);
      assert SlotOf(t'.events[pk]).listener in t.listeners;
    }
    forall a, b | a in t'.events && b in t'.events && SlotOf(t'.events[a]) == SlotOf(t'.events[b])
      ensures a == b
    {
      RowOrigin(t, t', slots, p, a);
      RowOrigin(t, t', slots, p, b);
    }
  }
}
