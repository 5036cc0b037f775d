# A verified model of OS2mo's events, timelines, batching and hierarchy

OS2mo keeps an organisation's units, people and functions in a bitemporal store
(LoRa), tells integrations about every change, and answers queries over the
result. This project states in Dafny what the parts with real algorithms in
them do, and proves what they promise.

- **Events** (`EventTables`, `EventStore`, `EventColumns`, `EmitterQuery`,
  `EventSystem`, `EventRuns`, `EmitterRuns`). The class
  `EventStore.EventDatabase` has the mutators, the fetch and the emitter's sending
  half as methods over its tables; each is proved against a function or relation
  on table contents (`EventTables`), and `EventColumns` says what these come to by
  the columns alone. `EventSystem` is the state machine made of the same functions
  and relations, with the emitter's transaction split into beginning, scanning,
  adding each event, and committing or failing, so that writes, declarations,
  fetches and acknowledgements fall anywhere in between. The theorems are about
  every finite run of it.
- **Timelines** (`Timeline`, `Bounds`, `Payloads`, `EnsuredBounds`, `Edits`,
  `Effects`). Lists of entries in force on half-open intervals: overwriting a
  stretch, moving the outer bounds, assembling an edit's payload, cutting an
  object into effects. The meaning of a list is the multiset of values active at
  each instant.
- **Loading** (`Batching`, `Extraction`, `Loading`). One merged query for many
  callers, and the redistribution of its results, against one query for each
  caller.
- **Queries** (`Hierarchy`, `Paging`). Recursive queries as worklists over a
  parent relation that may have cycles; following page cursors while rows come
  and go.
- **Quoting** (`Quoting`). Text inside case-insensitive URNs.

`Prelude` holds the few datatypes and helpers they share. Check the whole
project with `dafny verify dfyconfig.toml`.

## Where the code does not do what its documentation says

- **Deleted organisation functions are not announced.** The documentation
  (`docs/src/tech-docs/events.md:76`) promises an event whenever an object is
  registered. Deleting an object creates a registration without any attribute
  rows (`oio_rest/db/__init__.py:317-340`,
  `alembic/versions/initial_schema.sql:41139`), while the emitter reads the name of
  an organisation function, and with it the routing key, from the attribute rows
  of the very registration it looks at (`mora/amqp.py:261-307`).
  `EmitterQuery.AnnouncedIff` gives the exact condition for a changed object to
  be announced. `EmitterQuery.FunctionDeletionAnnouncedIff` says when an object is
  announced in a window with its deletion: exactly if it was also registered under
  the key earlier in that window. Otherwise no event is sent, then or later
  (`EmitterQuery.FunctionDeletionUnannounced`).
- **A write that commits late can be missed.** A registration starts at
  `clock_timestamp()` inside its transaction, not at its commit.
  `EmitterRuns.EveryChangeSeenIff` is the exact condition for no change of an
  object to be missed: none of its writes starts before the window that will be
  scanned next. Whatever the emitter is doing at a write,
  `EmitterRuns.LateWriteWindowed` says which starts meet that; a write that commits
  between an emitter's reading of `now` and its query does if it started after the
  last run, although before `now`. The condition is not an assumption of the main theorems:
  `EmitterRuns.EndToEnd` needs of each change only that no write made after the scan
  of its window starts within or before that window. `EmitterRuns.LateWriteMissed`
  is a run that loses a change.
- **A listener declared while a run is being emitted may get nothing of it.** Each
  event is added for the listeners of that moment (`mora/db/events.py:140-152`),
  and the transactions are not serialisable (`mora/db/__init__.py:88-89`).
  `EmitterRuns.SentExactly` says which listeners are sent to; those declared before
  the scan are among them. `EmitterRuns.LateListenerMissed` is a run with one that
  is not.
- **Silencing does affect delivery.** `docs/src/tech-docs/events.md:182` says it
  does not. A silenced event remains eligible
  (`EventTables.SilencedStillEligible`), but it is handed out only when the
  listener has no eligible event left that is not silenced
  (`EventTables.SilencedIsFetchedLast`). `EventTables.SilencingHarmlessIff` is the
  exact condition for the choice to remain the same, and
  `EventTables.SilencingChangesPick` a state in which it does not.
- **Backoff** is bounded by seventeen hours, as the code's inner comment says, not
  by one day as the outer one does (`EventTables.BackoffBounds`).
- **`inactivate_old_interval` over-marks across a gap.** If the new interval does
  not touch the old one, instants between the two are marked inactive as well;
  `Payloads.InactivatesDifference` shows that this is the only case.

## Model

Where two modules appear for one operation, the method does in steps what the
function or relation states, and the lemmas are about the latter.

| member | source | states |
|---|---|---|
| EmitterRuns.EndToEnd | mora/amqp.py:120-328 | In every run, for each change of an object there is the first successful emitter run whose `now` is past it. Unless a write of the object made after that run's scan starts before the end of its window: for each key carried to that end, each listener for the key that existed when it scanned and when it committed has the event pending, or had it fetched after that commit and acknowledged while current, or was deleted with its events |
| EmitterRuns.NoMissedChange | mora/amqp.py:123-143 | With the same proviso, that run found the change under each key carried to the end of its window; failed runs, other objects' writes, late writes before the scan and anything that starts after the window make no difference |
| EmitterRuns.EveryChangeSeenIff | mora/amqp.py:123-143 | The exact condition for no change of an object to be missed: every change that is due was seen by the scan of a successful run with the change in its window if and only if no write of the object that is past for the emitter started before the next window |
| EmitterRuns.OnTimeNoneMissed | mora/amqp.py:123-143 | Under that condition every change is found under each key carried to the end of the window |
| EmitterRuns.OnTimeEndToEnd | mora/amqp.py:120-328 | And delivered to every listener it concerns |
| EmitterRuns.PromptIsOnTime | mora/amqp.py:123-131 | The condition holds in particular if no write starts before a `now` already read |
| EmitterRuns.SeenIsFound | mora/amqp.py:130-155 | What a scan saw change is found under each key carried at the scan |
| EmitterRuns.FoundExactly | mora/amqp.py:123-308 | What a scan found, for the store as it was then: under each key exactly the objects with a change in the window for which the key is carried |
| EmitterRuns.WindowsAdjoin | mora/amqp.py:323-328 | The windows of successful runs adjoin: an instant lies in exactly one of them, whatever runs failed in between |
| EmitterRuns.RunKeepsPast | mora/amqp.py:123-128 | Writes of an object that start at an instant or later leave how it looked before that instant as it was |
| EmitterRuns.RunKeepsCarried | mora/amqp.py:133-143 | And a key carried to the end of the window in the light of later writes was already carried before them |
| EmitterRuns.RunCovers | mora/amqp.py:123-308 | A scan found the changes of its window under their carried keys, also in the light of everything written since that does not start before the window's end |
| EmitterRuns.FoundIsDelivered | mora/amqp.py:308-321 | Whatever a committed run found is owed to each listener for the key that existed when it scanned and when it committed |
| EmitterRuns.SentExactly | mora/amqp.py:110-117 | A committed run sends an object's event to exactly the listeners that existed, listening for the key, when the event was added, and still exist; one declared between that moment and the commit gets nothing |
| EmitterRuns.LateListenerMissed | mora/amqp.py:110-117 | A complete run in which a listener is declared between the addition of an event and the commit, and gets nothing |
| EmitterRuns.FailedRunIsRetried | mora/amqp.py:355-365 | A failed run leaves tables, store and last run alone, and the next run starts its window at the same instant |
| EmitterRuns.LateWriteWindowed | mora/amqp.py:123-131 | A registration start that a later run's time has passed lies in the window of a successful run that scanned after the write if and only if it is not before the next window's start: the last run's time if at the write no scan was pending or the pending one fails, else the end of the pending scan's window |
| EmitterRuns.LateWriteFound | mora/amqp.py:130-131 | And that run found the object under every key of the registration |
| EmitterRuns.LateWriteMissed | mora/amqp.py:123-131 | A complete run in which a late write changes an object and no emitter run announces it |
| EmitterQuery.EmitsExactly | mora/amqp.py:130-155 | The window announces an object under a key if and only if a registration with that key starts in it, or the one current at its end has the key and shows a change in the window |
| EmitterQuery.ChangeEmitted | mora/amqp.py:130-155 | Each change in the window is announced under every key carried to its end: a key on a registration that starts between the change and the end, or on the one current at both |
| EmitterQuery.EmittedIffCarried | mora/amqp.py:130-155 | And nothing else is: under a key exactly the objects with a change in the window for which the key is carried |
| EmitterQuery.EmittedIffChanged | mora/amqp.py:145-308 | For objects with one key: announced if and only if the object changed in the window |
| EmitterQuery.AnnouncedIff | mora/amqp.py:261-307 | An object that changed is announced under some key if and only if a registration that starts in the window or is current at its end carries a key |
| EmitterQuery.FunctionDeletionAnnouncedIff | oio_rest/db/__init__.py:317-340 | The deletion of an organisation function changes the object, and a window that includes it or comes later announces the object if and only if it also includes the start of an earlier registration with the key |
| EmitterQuery.FunctionDeletionUnannounced | oio_rest/db/__init__.py:317-340 | It is announced under no key when the object was last written before the window |
| EmitterQuery.InQuery | mora/amqp.py:145-308 | The union query returns exactly the pairs of key and object that are announced |
| EmitterQuery.ChangeIs | mora/amqp.py:133-143 | An object differs from the instant before if and only if a registration starts there, or a row of the current one, unless that is a deletion, begins or ends there |
| EventRuns.NoLostEvent | mora/db/events.py:154-171 | Once an event was sent to a listener for a subject, at every later moment of every run a row is pending, or was fetched after that send and acknowledged with that very token, or the listener was deleted with its events |
| EventRuns.StaleAcknowledgement | mora/graphapi/mutators.py:1594-1601 | A row is removed if and only if the token names its primary key and current generation and the caller owns the listener; otherwise it is untouched |
| EventRuns.AcknowledgedAfter | mora/graphapi/events.py:445-449 | The token that removes a row comes from a fetch later than the row's last send |
| EventRuns.IssuedByFetch | mora/graphapi/events.py:445-449 | Every token in circulation was returned by an earlier fetch |
| EventRuns.SlotUnchanging | mora/db/events.py:96-98 | A primary key stands for one listener and subject throughout a run |
| EventRuns.PriorityIsLeast | mora/db/events.py:167 | In every run a row's priority is the least of all priorities sent to it since it was created |
| EventRuns.RetrySpacing | mora/graphapi/events.py:408-426 | The k-th fetch of a generation and the next are more than the k-th delay apart if the row was not rerun, nor unsilenced while silenced, between the two, whatever happened before and whatever the transaction clocks do |
| EventRuns.RetrySpan | mora/graphapi/events.py:408-441 | Over any stretch without such a disturbance the fetches span more than the sum of the delays between them, each at least three minutes |
| EventRuns.RegistryInvariant | alembic/versions/fddce88bc3ac_graphql_events.py:29-92 | In every reachable state each event's listener and each listener's namespace exist, the namespace admits the listener's owner, and listener names and event slots are unique |
| EventRuns.ListenerUnchanging | mora/graphapi/mutators.py:1509-1536 | While a listener exists, its user key, owner, namespace and routing key never change |
| EventRuns.ListenerLives | mora/graphapi/mutators.py:1548-1568 | A listener lives, unchanged, until a deletion that names it |
| EventRuns.StepListenerFate | mora/graphapi/mutators.py:1490-1568 | A listener goes if and only if a deletion names it and is not refused, and comes only by a declaration of just its data under a free name |
| EventRuns.StepNamespaceFate | mora/graphapi/mutators.py:1415-1477 | A namespace goes only by its own deletion while it has no listeners, comes only by its declaration, and never changes |
| EventRuns.RedeclareListener | mora/graphapi/mutators.py:1490-1543 | Repeating a successful declaration changes nothing and returns the same listener; no other listener is touched |
| EventRuns.RedeclareNamespace | mora/graphapi/mutators.py:1415-1451 | The same for namespaces |
| EventSystem.StepKeepsInv | mora/amqp.py:120-143 | Every step keeps the tables sound, tokens drawn, histories well-formed, and the running emitter's window anchored at the last run |
| EventSystem.StepKeepsSound | alembic/versions/fddce88bc3ac_graphql_events.py:40-89 | Every step keeps foreign keys, both uniqueness constraints and namespace admission |
| EventSystem.RunKeepsInv | mora/amqp.py:323-328 | The invariant holds along every run, and the last run, the latest `now` read and the UUID draws never go back |
| EventSystem.StepRowFate | mora/db/events.py:154-171 | What each step can do to one row: a send renews it, a fetch marks it tried, maintenance makes it due, an acknowledgement of its own token or the deletion of its listener removes it; only sends create rows |
| EventSystem.EmittedTogether | mora/amqp.py:308-321 | Emitted without interruption, the rows found go to just the listeners of that moment |
| EventTables.BackoffBounds | mora/graphapi/events.py:408-426 | The delay lies between three minutes and seventeen hours and grows with the number of fetches |
| EventTables.BackoffUnclamped | mora/graphapi/events.py:414-416 | The clamp at 32 never changes the delay |
| EventTables.BackoffStart | mora/graphapi/events.py:406-411 | Exactly the first seven retries are three minutes apart |
| EventTables.DeliversCompose | mora/db/events.py:140-171 | Two sends of one priority, one after the other, amount to one send to the union of their slots |
| EventTables.DeliversSound | mora/db/events.py:140-174 | A send to existing listeners keeps all integrity constraints |
| EventTables.SentIsDue | mora/db/events.py:162-170 | A row just sent to can be fetched by its listener's owner at once, whatever its backoff was |
| EventTables.SilencedStillEligible | mora/graphapi/mutators.py:1657-1672 | Silencing does not change which events may be fetched |
| EventTables.SilencedIsFetchedLast | mora/graphapi/events.py:427-431 | A silenced event is fetched only when no eligible event is left unsilenced |
| EventTables.SilencingHarmlessIff | mora/graphapi/events.py:427-431 | With m a row that could be picked, silencing leaves the possible picks as they are if and only if m is silenced already, or no row that could be picked is silenced, or all eligible rows end up silenced and none silenced before ranks level with m or before it |
| EventTables.SilencingChangesPick | mora/graphapi/events.py:427-431 | A concrete state in which silencing the first of two events changes what is delivered next |
| EventTables.DueAgain | mora/graphapi/mutators.py:1677-1742 | A rerun, or unsilencing what was silenced, makes the event eligible whatever its backoff |
| EventStore.EventDatabase.AddEvent | mora/db/events.py:120-174 | Sends to exactly the matching listeners: existing rows get a new generation, the lower priority, no backoff; missing rows are created; all others stay |
| EventStore.EventDatabase.Upsert | mora/db/events.py:141-171 | The insert with its conflict clause, for one slot |
| EventStore.EventDatabase.EventFetch | mora/graphapi/events.py:392-449 | Hands out the least eligible unlocked row by silenced, priority and fetch count, or nothing if and only if no row is eligible; changes that row's last try and count only |
| EventStore.EventDatabase.PickEvent | mora/graphapi/events.py:397-434 | The choice of that row |
| EventStore.EventDatabase.EventAcknowledge | mora/graphapi/mutators.py:1573-1610 | Removes the row exactly if the token is current and the caller owns the listener; reports whether a row was removed |
| EventStore.EventDatabase.EventSend | mora/graphapi/mutators.py:1615-1646 | Each refusal with its reason and unchanged tables, otherwise the send |
| EventStore.EventDatabase.Refresh | mora/graphapi/mutators.py:1850-1896 | Refuses an exchange together with a listener or owner; otherwise sends one event for each UUID unless a legacy exchange is named |
| EventStore.EventDatabase.NamespaceDeclare | mora/graphapi/mutators.py:1415-1451 | Creates the namespace or finds it; refuses another owner or visibility |
| EventStore.EventDatabase.NamespaceDelete | mora/graphapi/mutators.py:1462-1477 | Refused exactly while the namespace has listeners |
| EventStore.EventDatabase.ListenerDeclare | mora/graphapi/mutators.py:1490-1543 | Creates the listener or finds it; refuses missing or closed namespaces and another routing key |
| EventStore.EventDatabase.ListenerDelete | mora/graphapi/mutators.py:1548-1568 | Deletes pending events if asked to; refused exactly while events remain |
| EventStore.EventDatabase.EventSilence | mora/graphapi/mutators.py:1657-1672 | Silences exactly the selected events |
| EventStore.EventDatabase.EventUnsilence | mora/graphapi/mutators.py:1677-1707 | Unsilences the selected events that are silenced, and makes those due |
| EventStore.EventDatabase.EventRerun | mora/graphapi/mutators.py:1712-1752 | Makes the selected events due and returns them |
| EventStore.EventDatabase.EmitEvents | mora/amqp.py:308-328 | Sends for every row found and advances the last run, or, if any publication raises, leaves tables and last run as they were |
| EventColumns.EventAdded | mora/db/events.py:130-171 | By the columns: after an event is added, a listener whose namespace and routing key agree, and whose key and owner agree with those given, has a row of a new generation for the subject, due at once; the rows of any other listener and subject are the same as before |
| EventColumns.EventsEmitted | mora/amqp.py:110-117 | The same for the rows found by an uninterrupted emitter run, with the default priority |
| EventColumns.AddressedRow | mora/db/events.py:154-171 | By the columns: what becomes of an addressed row, old or new: generation, last try, count, priority and silencing |
| EventColumns.SendStep | mora/graphapi/mutators.py:1615-1646 | A send step reaches exactly the listeners whose columns agree, if the caller owns the namespace and priority and subject are within their limits, and nobody otherwise |
| EventColumns.RefreshStep | mora/graphapi/mutators.py:1881-1893 | The same for a refresh |
| EventColumns.CommitStep | mora/amqp.py:323-328 | The same for the commit of an emitter run |
| EventColumns.RefusedSends | mora/graphapi/mutators.py:1620-1637 | Each reason for refusing a send, when it is given, and when none is |
| EventColumns.PickedFirst | mora/graphapi/events.py:427-431 | No row that may be fetched comes before the one picked, by silenced, then priority, then number of fetches |
| EventColumns.EligibleRows | mora/graphapi/events.py:401-426 | A fetch may take just the unlocked rows of the caller's own listener whose delay is over |
| EventColumns.FirstPicked | mora/graphapi/events.py:427-432 | And any row with which none compares better can be picked |
| EventColumns.FetchedRows | mora/graphapi/events.py:435-440 | What a fetch leaves of each row |
| EventColumns.AcknowledgedRows | mora/graphapi/mutators.py:1594-1601 | By the columns: which row an acknowledgement removes; the others stay as they are |
| EventColumns.SelectedRows | mora/graphapi/events.py:42-96 | Which rows a filter selects: each condition given on event, listener and namespace holds |
| EventColumns.MaintainedRows | mora/graphapi/mutators.py:1657-1742 | What silencing, unsilencing and a rerun leave of a row |
| EventColumns.NamespaceDeclared | mora/graphapi/mutators.py:1415-1451 | When a namespace can be declared, and what changes |
| EventColumns.NamespaceDeleted | mora/graphapi/mutators.py:1462-1477 | Refused exactly while a listener is in the namespace; else just it goes |
| EventColumns.ListenerDeclared | mora/graphapi/mutators.py:1490-1543 | When a listener can be declared, and what changes |
| EventColumns.ListenerDeleted | mora/graphapi/mutators.py:1548-1568 | When a listener can be deleted, and what goes with it |
| Timeline.LastWriterWins | mora/common.py:222-297 | After any sequence of edits the values active at an instant are those of the last edit covering it, else the originals |
| Timeline.OverwriteShape | mora/common.py:222-297 | The result is sorted by start, and stays disjoint when each edit brings one entry |
| Timeline.OverwriteAllEntries | mora/common.py:255-295 | After any sequence of edits each entry is a piece of an original or of what an edit wrote, with its value, and non-empty if that is |
| Timeline.MergeObjEffects | mora/common.py:222-297 | The loop computes the overwrite; the caller's list of new entries receives the remaining pieces, the sorted result is a new list unless there were no originals |
| Timeline.DisjointPairwise | mora/common.py:222-297 | No instant has two active entries if and only if no two entries share an instant |
| Timeline.CutPieces | mora/common.py:257-295 | Pieces of a non-empty entry are non-empty, lie within it and keep its value |
| Timeline.SortKeeps | mora/common.py:254-297 | Sorting by start keeps the entries and what is active at each instant |
| Timeline.SortStable | mora/common.py:254 | Sorting is stable: entries with the same start keep their order |
| Bounds.MoveEnds | mora/common.py:137-170 | The first start and last end move in place, also when both belong to one object; which entries go into the payload for zero-to-one and adapted fields |
| Bounds.SortAndMoveEnds | mora/common.py:137-170 | The same starting from the field's own objects, which all keep their identity |
| Bounds.FieldBounds | mora/common.py:137-170 | The three kinds of field |
| Bounds.EnsureFieldBounds | mora/common.py:137-175 | For one field: the payload gains the moved entries at its path, or stays the same if nothing moved |
| EnsuredBounds.EnsureBounds | mora/common.py:130-176 | The loop over all fields, each seeing the entries of the object as they are by then, computes the payload that the original object calls for |
| EnsuredBounds.FieldEnsured | mora/common.py:137-175 | The payload's entries for each field are those it had and then what the field's own originals, stretched, call for; fields at the same path do not disturb each other |
| EnsuredBounds.ZeroToManyAdded | mora/common.py:159-161 | A zero-to-many field gives all its entries to the payload, as they are |
| EnsuredBounds.StretchedAdded | mora/common.py:143-175 | The other kinds, for disjoint non-empty originals: nothing exactly if the field covers the bounds; else what brings its timeline to reach both and leaves it alone inside |
| EnsuredBounds.OriginalsAre | mora/util.py:472-485 | A field's originals are the entries at its path, those with its object type if it has one |
| EnsuredBounds.EnsuredElsewhere | mora/util.py:450-469 | Paths no field names are left as they were |
| Bounds.ExtendedRegular | mora/common.py:143-170 | The hull reaches the bounds asked for, and the timeline stays non-empty, ordered and disjoint |
| Bounds.ExtendedActive | mora/common.py:143-170 | Every instant inside the old hull keeps its values, gaps included; the new stretches have the first and last value |
| Bounds.SortedRegular | mora/common.py:140-142 | Disjoint non-empty entries, once sorted, are such a timeline |
| Bounds.NothingMoved | mora/common.py:148-172 | Nothing is given to the payload exactly if the timeline reaches both bounds already |
| Bounds.ResultingActive | mora/common.py:148-172 | In both branches the resulting timeline reaches both bounds, is in force at each instant as the original inside its hull, and has the first and last value beyond |
| Bounds.BranchesAgree | mora/common.py:143-170 | The at most two entries given back for a zero-to-one field, overwritten one after the other onto the original, make exactly the list of the adapted branch |
| Payloads.UpdatePayload | mora/common.py:179-219 | The grouping and the loop over fields compute the updated payload |
| Payloads.UpdateField | mora/common.py:192-216 | One field's contribution, merged for adapted fields only |
| Payloads.CombineFields | mora/common.py:187-190 | The grouping keeps each field's values in order, fields in first-seen order |
| Payloads.TaggedFieldsIndependent | mora/mapping.py:409-425 | The list at a shared path, restricted to one field's tag, is what was there plus the overwrite of that tag's original timeline by that tag's values |
| Payloads.OtherPathsUntouched | mora/util.py:450-469 | Paths no change names are left as they were |
| Payloads.PathContributions | mora/util.py:450-469 | The list at any path is the old list followed by the contributions of exactly its fields |
| Edits.AdaptedFieldAlone | mora/common.py:199-201 | What an adapted field without a tag, alone at its path, adds to the payload has in force at each instant the edit's values on the edit's interval, and the originals elsewhere |
| Edits.AdaptedFieldUpdated | mora/common.py:196-201 | The contribution of any adapted field, tagged or not, pointwise in time |
| Edits.PlainFieldAlone | mora/common.py:202-209 | Fields of the other kinds add exactly the values of their changes, in order, on the interval of the edit |
| Edits.ValuesInOrder | mora/common.py:187-190 | A field's values are those of its changes, in their order |
| Edits.FieldsInOrder | mora/common.py:187-192 | Fields come in the order of their first changes |
| Edits.NormalisedIs | mora/common.py:211-216 | Exactly relation entries without any value get an empty uuid and urn |
| Edits.InRelationsIs | mora/common.py:214 | A path is in the relations exactly if its group's name contains that word |
| Payloads.InactivatesDifference | mora/common.py:106-127 | Exactly the instants of the old interval outside the new one are marked, once each, if and only if there is no gap between the two |
| Payloads.InactivatedAt | mora/common.py:106-127 | What is marked at each instant in general |
| Effects.GetEffects | mora/lora.py:769-842 | The cut points are exactly the starts and ends of relevant entries, and the effects are the non-empty stretches between neighbours |
| Effects.CutPoints | mora/lora.py:799-816 | The collection of the cut points |
| Effects.ChunksOrdered | mora/lora.py:819-842 | Effects are non-empty, ordered and disjoint |
| Effects.ActiveInOneEffect | mora/lora.py:799-842 | Each instant at which a relevant entry is active lies in exactly one effect |
| Effects.RelevantListed | mora/lora.py:821-838 | Within an effect a relevant entry is listed if and only if it is active at some instant of it, and if and only if at all |
| Effects.AdditionalListed | mora/lora.py:821-838 | An additional entry is listed if and only if it overlaps the effect, which for a non-empty entry means being active at some instant of it |
| Effects.OnlySelectedListed | mora/lora.py:829-838 | Nothing else is listed |
| Effects.EffectIfOverlap | mora/lora.py:829-842 | There is an effect for a stretch between neighbouring cut points exactly if some selected entry overlaps it |
| Effects.FilterListAppend | mora/lora.py:821-827 | Entries are listed in the object's order, as often as they occur |
| Effects.PresentKeeps | mora/lora.py:265-268 | A present connector keeps an effect if and only if the two share an instant |
| Effects.OthersKeep | mora/lora.py:265-268 | Past and future connectors keep exactly the effects all of whose instants lie inside, after the window's start |
| Batching.LoadLoads | mora/lora.py:497-573 | Every call gets, in store order, exactly what it would have got alone |
| Batching.IdsToFetch | mora/lora.py:507-518 | The merged search misses no object that some call matches |
| Batching.GroupParams | mora/lora.py:304-328 | A value is in a key's merged set if and only if some call asks for it |
| Batching.IndexCalls | mora/lora.py:534-538 | The inverted index lists a call under a key and value if and only if the call asks for them |
| Batching.MatchingCalls | mora/lora.py:557-570 | An object goes to exactly the calls it matches on every key by any value |
| Batching.Distribute | mora/lora.py:555-573 | Each call receives the objects it matches, in fetch order |
| Batching.SearchInFetched | mora/lora.py:507-521 | Searching what was fetched gives what searching the store gives |
| Batching.SearchByUuid | mora/lora.py:508-510 | A call by UUID alone may skip the search |
| Batching.IdIsValue | mora/lora.py:364-379 | Every object answers to its own id |
| Extraction.ValuesForAre | mora/lora.py:332-379 | What an object answers to, told from the document: the uuid or id of a relation to the nearest label before it, every other leaf that ends in a label to that label with id read as uuid, a leaf that ends in an index to nothing |
| Extraction.LeavesAre | mora/lora.py:344-363 | The traversal yields exactly the leaves of the document, with their paths |
| Extraction.RelationAnswers | mora/lora.py:377-378 | A relation's uuid in a list answers to the relation's name |
| Extraction.LoadedAlone | mora/lora.py:540-573 | A single load finds exactly the objects that answer to each key with one of the values asked for |
| Loading.LoadMo | mora/graphapi/dataloaders.py:45-85 | At each position the result of fetching that key alone, duplicates and mixed intervals included |
| Loading.BucketKeys | mora/graphapi/dataloaders.py:70-77 | Buckets hold exactly their interval's keys, in order |
| Loading.LoadBuckets | mora/graphapi/dataloaders.py:73-84 | After the fetches each key has its object's models of its own interval |
| Loading.GetByUuid | mora/graphapi/resolvers.py:3016-3026 | Keeps exactly the objects with a non-empty result, and for an object asked for in several intervals the last such result, in the order in which its keys first occur |
| Loading.LastResultIs | mora/graphapi/resolvers.py:3022-3026 | The result kept for an object is the last that is not empty |
| Loading.FirstSeenInOrder | mora/graphapi/resolvers.py:3019 | Keys keep the order of their first occurrences |
| Hierarchy.RecursiveUnion | mora/graphapi/resolvers.py:2099-2126 | The worklist ends on every finite relation, cycles included, with the reflexive-transitive closure of its base |
| Hierarchy.SelectByDescendant | mora/graphapi/resolvers.py:2074-2126 | Selects exactly the active units that are reached by walking up from an active unit that matches |
| Hierarchy.SelectByAncestor | mora/graphapi/resolvers.py:2177-2223 | The same walking down |
| Hierarchy.DescendantAncestorDual | mora/graphapi/filters.py:726-786 | For active units, u is selected by descendant v if and only if v is selected by ancestor u; and each unit is its own descendant and ancestor |
| Hierarchy.DescendantSelects | mora/graphapi/resolvers.py:2084-2126 | By the rows: selected by descendant are exactly the active units at the upper end of a chain of in-force parent rows of live registrations that starts at a matching active unit |
| Hierarchy.AncestorSelects | mora/graphapi/resolvers.py:2178-2223 | And by ancestor those at the lower end of one that ends at a matching active unit |
| Hierarchy.RowSelects | mora/graphapi/resolvers.py:2100-2121 | One parent row makes the parent selected by its child as descendant, and the child by its parent as ancestor |
| Hierarchy.ActiveIs | mora/graphapi/resolvers.py:1871-1897 | A unit is active by an in-force active state row of a live registration |
| Hierarchy.InheritedManagers | mora/graphapi/resolvers.py:1575-1632 | Returns exactly the managers on units of the walk |
| Hierarchy.ReturnedIffNearest | mora/graphapi/resolvers.py:1617-1632 | On any graph a manager is returned if and only if its unit is reached from a starting unit by a path without managers on earlier units |
| Hierarchy.WalkIsRecursiveDefinition | mora/graphapi/resolvers.py:1643-1653 | On a relation without cycles the walk returns exactly the union over the starting units of "own managers if any, else the parents' by the same rule" |
| Paging.CompleteUnderChange | mora/graphapi/paged.py:129-147 | When an iteration over changing results ends, every UUID that matched at each request was returned, and the UUIDs returned are strictly increasing |
| Paging.IterationKeeps | mora/graphapi/paged.py:136-147 | Along the way: nothing is returned twice or out of nowhere, and nothing up to the cursor is missing that was always there |
| Paging.CompleteUnchanging | mora/graphapi/paged.py:129-147 | On an unchanging result the pages concatenate to all of it, in max(1, ceil(count / limit)) pages |
| Paging.PageIs | mora/graphapi/paged.py:136-147 | A page is the start of what comes after the cursor, with a next cursor exactly if more comes |
| Paging.PageAtExtremes | mora/graphapi/paged.py:24-35 | Without a limit all is one page; a limit of zero gives an empty page and ends the iteration |
| Paging.PageFits | mora/graphapi/paged.py:136-147 | A page is increasing, past its cursor and complete up to its next cursor |
| Quoting.UnquoteQuoted | mora/util.py:297-325 | Unquoting the quoted form of any text gives the text back |
| Quoting.CaseSafeRoundTrip | mora/util.py:300-308 | Also after any change of case on the way, by lower-casing what arrives |
| Quoting.QuotedInjective | mora/util.py:300-322 | Two texts never share a quoted form, even with case disregarded |
| Quoting.UrnQuote | mora/util.py:300-322 | The loop over the stream that starts as "w" computes the quoted form |
| Quoting.TextStream.Write | mora/util.py:314-322 | Writing replaces what stands at the position |
| Quoting.DecodeEncoded | mora/util.py:315 | UTF-8 decoding inverts encoding for every text |
| Quoting.DecodesOnlyEncoded | mora/util.py:325 | And it accepts encodings only |
| Quoting.EncodedForm | mora/util.py:315 | The byte sequences of section 4 of RFC 3629: which code points have how many bytes, their leading bits and the bits they carry |
| Quoting.QuotedByte | mora/util.py:297-320 | A safe byte stands for itself, any other is a percent sign and its two lower-case hexadecimal digits |
| Quoting.QuotedUnchangedIff | mora/util.py:297-320 | A text is left as it is exactly if it consists of safe characters, and grows otherwise |
| Quoting.EscapeRead | mora/util.py:325 | Unquoting reads a percent sign and two hexadecimal digits as their byte |
| Quoting.HexValueIs | mora/util.py:325 | Hexadecimal digits have their usual values, in either case |
| Quoting.NothingToUnquote | mora/util.py:325 | A text without a percent sign is left alone by unquoting |
| Quoting.LowerIs | mora/util.py:301-302 | What a change of case does to each character |

## Left out

- SQL execution, sessions and PostgreSQL's locking: rows and atomic steps instead. Rows locked by concurrent fetches are an arbitrary set given to each fetch.
- The tables' integer widths, `created_at`, metrics and alerting; UUIDs are drawn from a counter, which stands for a generator that never repeats itself.
- Publishing on the legacy message bus: whether a publication raises is a parameter of `EventDatabase.EmitEvents`; what was already published when a run fails is not retracted by the source either, and consumers of that bus are not modelled.
- The time between emitter runs: a run may begin at any moment, and nothing is claimed about when. There is one emitter, and the times it reads do not go back.
- What PostgreSQL's row locks rule out between the addition of an event and the commit, such as deleting its listener: the state machine allows it, so that the theorems cover more than can happen.
- The texts of refusals are shortened.
- Serialising event tokens to text: a token is a pair.
- Time zones, daylight saving and date parsing: instants are integers, the two infinities integers beyond all others.
- Batching.LoadLoads: fetches are functions of one unchanging store, key tuples are without repetition and value sets non-empty; where the merged search finds nothing the source's second fetch goes out without ids, and the model yields nothing for it.
- Shortcuts around the batching in `Scope.load` (wildcards, arbitrary relations, validity parameters, feature flag): those calls are not batched at all.
- EnsuredBounds.EnsureBounds: the fields of one call select different entries, by path or by tag, as in all field tables (mora/mapping.py:460-579); for fields that share entry objects nothing is claimed.
- Payloads.UpdatePayload: payloads and originals are maps from two-component paths to entry lists, which flattens nested dictionaries; filters compare one tag, and an entry without the tag key does not match where the source would raise.
- Quoting.UnquoteQuoted: where bytes are not UTF-8, the library puts replacement characters; the model gives no text. No quoted form has such bytes.
- Leaf filtering by `child=None`, the parent filter's table, and offset paging of namespaces: the source itself marks or leaves these inconsistent.
- The other filters and resolvers, GraphQL types, access control, service handlers and LoRa's own database functions: declarative, input and output, or plumbing.
