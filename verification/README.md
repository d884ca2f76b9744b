# fs-store: a verified model of `FileStore`

`FileStore` keeps a JSON document in memory and persists it to one file. Mutations
through `set` are coalesced into one deferred `save`. A save that changes nothing is
skipped. A real save writes `<file>.tmp`, rotates the backup chain `<file>`,
`<file>.0.bak`, …, `<file>.(max_backups-1).bak`, renames the temp file onto the primary,
and then waits `min_save_interval` before another write may begin. Flush callbacks
registered with `onFlush` run once the disk has caught up. At start-up the store walks the
primary and then its backups, and takes the first one that parses to a truthy value.

The model is in seven modules, one file each:

- `wrappers.dfy` (`Wrappers`): `Option`.
- `json.dfy` (`JsonValues`): JSON values and JavaScript truthiness. An object is the
  sequence of its own members in JavaScript's enumeration order: array-index keys first,
  ascending, then every other key in creation order. That is the order `JSON.stringify`
  writes them in, so two objects with the same members in another order are different
  values. The assignment `obj[key] = value` overwrites an existing member in place and
  adds a new one where JavaScript lists it. `JSON.stringify` and `JSON.parse` are given
  functions bundled in a `Codec`; nothing is assumed about them except where a lemma
  states `RoundTrips` as a hypothesis.
- `paths.dfy` (`Paths`): `filePath` and the decimal rendering of backup numbers. It proves
  that distinct chain indices, and the temp file, name distinct files.
- `disk.dfy` (`Disk`): the store's files as a map from `Slot` (`Chain(k)` or `Tmp`) to their
  text. `SlotPath` names the file of each slot, and distinct slots name distinct files.
  It holds `removeBackup` as the recursive `RemoveBackup`, and the whole disk side of
  a write as `WriteCycle`. It also proves that rotation shifts exactly the leading run of
  present files, and that repeated writes keep the `max_backups + 1` newest payloads.
- `loading.dfy` (`Loading`): the constructor's `tryFile` walk.
- `filestore.dfy` (`FileStore`): the options, the object's fields and its operations
  (`get`, `set`, `onFlush`, `callOnFlushCbs`, `save`, the end of a write, the timer).
  These act on a `World`, which is the store plus the world it drives:
  - the files;
  - the outstanding I/O (`NoIo`, `WriteInFlight(payload)`, `CooldownTimer`);
  - the `setImmediate` queue;
  - the log of callbacks that have run.
- `machine.dfy` (`Machine`): events, `Step`/`Run`, the scheduler invariant, callback
  conservation, debounce and pacing over event sequences, and the finding below.

The model follows index.js on these points:

- Rotation stops at the first missing file. It does not skip a gap.
- Rotation errors are logged and dropped. The temp file is installed regardless.
- A callback registered during the cooldown is not run when the timer fires (see
  Findings).
- Backup numbering is `filePath(k) = base.(k-1).bak` for `k` in `1..max_backups`.

Timing is abstract. Each asynchronous continuation becomes one event: a `setImmediate`
job runs, a write cycle finishes (staging, rotation and install together), or the
`min_save_interval` timer fires. An event whose moment has not come, such as a write
finishing when none is in flight, leaves the world unchanged.

## Model

| member | source | states |
|---|---|---|
| Paths.Decimal | index.js:83 | the number text of a backup name is a non-empty run of digits, one digit exactly for numbers below ten, ending in the last decimal digit |
| Paths.DecimalInjective | index.js:83 | two numbers with the same decimal text are equal |
| Paths.FilePath | index.js:79-85 | index 0 is the base path; any other index is the base path followed by `.`, the decimal of index-1, and `.bak` |
| Paths.FilePathInjective | index.js:79-85 | distinct chain indices give distinct file names |
| Paths.TmpPathNotInChain | index.js:113 | the staging file `base.tmp` is never a chain file |
| Disk.SlotPathInjective | index.js:79-85 | distinct slots, the staging file included, name distinct files, so the files can be keyed by slot |
| Disk.Rename | index.js:130 | a rename moves the text of the source onto the target, removes the source and leaves every other file alone |
| Disk.RemoveBackup | index.js:117-134 | a rotation from `retries` only creates chain files in `retries+1..max_backups`; it never touches the temp file or earlier slots; it vacates its own slot unless that slot's operation fails; it reports an error exactly when that operation fails |
| Disk.RemoveBackupShifts | index.js:117-135 | without faults, the contiguous run of present slots from `lo` moves one index down; the run stops at the first missing slot; the file at `max_backups` is dropped when the run reaches it; every other file is unchanged |
| Disk.ShiftExtends | index.js:129-130 | renaming a slot onto the slot its deeper walk vacated extends the shift by one slot |
| Disk.WriteCycle | index.js:113-142 | after a write the primary holds the payload and no temp file is left, whatever rotation faults occur; no file is created outside slots `0..max_backups` |
| Disk.WriteCycleKeepsPrevious | index.js:135-142 | without faults, backup slot 1 holds the previous primary after a write |
| Disk.WriteCycleExtendsChain | index.js:113-142 | a write on a gap-free chain pushes the payload on the front and drops the oldest file once `max_backups + 1` files exist |
| Disk.WritesKeepNewest | index.js:113-142 | starting with no files, K writes leave exactly the min(K, max_backups+1) newest payloads, newest in the primary |
| Disk.ChainFileCount | index.js:117-134 | a chain holding a history of n payloads consists of exactly n files |
| Loading.TryFile | index.js:49-68 | the walk returns the first slot in `retries..max_backups` whose text parses to a truthy value, or else the default; `last_saved_data_store` ends as the text of the last slot read, even one that failed to parse |
| Loading.TryFileIgnoresDeeperSlots | index.js:61-64 | two directories that agree on slots `0..max_backups` load the same document and text |
| Loading.ReloadAfterWrite | tests/fs_store.js:43-53 | if parsing inverts serialising, a fresh load after a write returns the written document, whatever the rotation did |
| JsonValues.Lookup | index.js:165-166 | a key is found exactly when the object owns it, and the value found is that of one of its members |
| JsonValues.Assign | index.js:173 | after `obj[key] = value` the key reads as `value` and every other key as before; an owned key is overwritten in place with every other member unchanged; a new key is inserted at its insertion point with the other members in their relative order (last, for a non-index key); assigning the value already held changes nothing |
| JsonValues.InsertionPoint | index.js:173 | a new key's position: every member before it is listed before the key, and the member at it is not; a non-index key goes after all members |
| JsonValues.AddMemberInserts | index.js:173 | adding a property inserts exactly one member at the insertion point; the members before and after it keep their relative order |
| JsonValues.AddMember | index.js:173 | a new property adds exactly one member; a non-index key is appended at the end; lookups of other keys are unchanged |
| JsonValues.AddMemberKeepsEnumerable | index.js:173 | adding a new property keeps member names distinct and in enumeration order |
| JsonValues.AssignKeepsEnumerable | index.js:173 | any assignment keeps member names distinct and in enumeration order |
| FileStore.Configure | index.js:38-43 | an empty filename is refused; every zero or falsy option takes its default (1000 ms, 3 backups, `{}`), so the result always has a truthy default and at least one backup |
| FileStore.ConfigureIsIdempotent | index.js:38-43 | a configuration passed back as options is accepted and comes out unchanged, so the defaults are a fixed point of the option handling |
| FileStore.Open | index.js:30-69 | a new store has the options after their defaults, holds the document and last saved text that `tryFile(0)` loads from the files, is idle with nothing pending, queued or waiting, and its document is truthy |
| Machine.OpenEmptyIsFresh | index.js:38-68 | over a directory with none of the store's files, a new store holds the configured default object and an empty last saved text |
| FileStore.GetMissing | index.js:164-170 | `get` on a key the document does not own returns the caller's default |
| FileStore.GetAfterSet | index.js:164-182 | on an object document, after `set(k, v)`, `get(k, d)` is `v` and every other key reads as before; `set('__proto__', v)` on an object that does not own `__proto__` creates no own property, so `get` still returns the default |
| FileStore.SetKeepsMemberOrder | index.js:173 | set keeps an object's members distinct and in enumeration order; a key already owned keeps its place, and a new ordinary key is listed last, which is where `JSON.stringify` (index.js:104) writes it |
| FileStore.SetSameValueKeepsDocument | tests/fs_store.js:54-68 | setting an owned key to the value it holds leaves the document exactly as it was, member order included |
| Machine.OpenIsSettled | index.js:45-48 | a freshly opened store satisfies the scheduler invariant |
| Machine.SaveKeepsInv | index.js:98-112 | a save re-establishes the scheduler invariant, even when it was run by the last queued job |
| Machine.StepOtherKeepsInv | index.js:71-154 | every event other than the timer keeps the invariant |
| Machine.StepKeepsInv | index.js:98-154 | every event keeps the invariant: `writing` holds exactly while a write or its cooldown is outstanding, the write in flight carries the last saved text, and a pending write always has a save coming |
| Machine.RunKeepsInv | index.js:98-182 | the invariant holds after any sequence of events |
| Machine.OnlyTimerClearsWriting | index.js:143-148 | `writing` is cleared only by the cooldown timer |
| Machine.WriteStartsOnlyWhenIdle | index.js:98-112 | a write starts only from an idle store or from the timer that ends the previous cooldown; it sets writing, clears the pending mark, and carries the new last saved text |
| Machine.InFlightOnlyEndsByFinishing | index.js:100-103 | a write in flight is never replaced or dropped: every event but its own completion leaves it in flight, and the completion starts the cooldown |
| Machine.WriteInFlightSurvives | index.js:100-103 | across any events without the write's completion, the write stays in flight with the same payload, the store stays writing and the files do not change |
| Machine.SaveDuringWriteIsDeferred | index.js:100-148 | a save called during a write is not lost: after the write and its cooldown, a write of the current document starts unless its text is the one just written or the store is read-only, and then nothing is pending |
| Machine.ReopenAfterSave | tests/fs_store.js:43-53 | after a real save's write finishes, a new store opened on the files, with any options naming a file, holds the saved document with its text as last saved, provided parsing inverts serialising on it |
| Machine.SavePersistsDocument | index.js:104-142 | a save of new text on an idle, writable store puts that text in the primary, leaves no staging file and records it as last saved; if parsing inverts serialising, a reload returns the document |
| Machine.FinishedWriteHoldsLastSaved | index.js:135-142 | when a write finishes, the primary holds the last saved text and no staging file is left, whatever the rotation faults, and the cooldown starts |
| Machine.NoOpSetStillFlushes | tests/fs_store.js:77-86 | on an idle store, a set whose serialised document equals the last saved text, or any set on a read-only store, writes nothing and leaves nothing pending, yet a callback registered after it runs when the queued save runs, after those already waiting |
| Machine.CooldownNoOpSetFlushes | tests/fs_store.js:69-76 | the same during the cooldown of a write, as when the no-op set comes from a flush callback: when the timer fires its save writes nothing, leaves nothing pending and runs the callback after those already waiting |
| Machine.IdleOnFlushRunsNext | index.js:71-74 | onFlush on a store with nothing written or pending runs the callback as the next setImmediate job and changes nothing else |
| Machine.OnFlushWhileWriting | index.js:71-77 | onFlush calls during a write queue their callbacks in on_flush in registration order and change nothing else |
| Machine.FlushRunsInRegistrationOrder | index.js:87-96 | callbacks registered during a write run, each once and in registration order after those already waiting, as soon as the write finishes with nothing pending, and the queue is left empty |
| Machine.CooldownHoldsWrites | index.js:143-148 | until the timer fires, no write starts and the files do not change |
| Machine.SetsCoalesce | index.js:172-182 | any number of `set` calls queue at most one save between them (exactly one when none was pending) and leave a write pending |
| Machine.SaveConservesCallbacks | index.js:104-109 | a save neither loses nor repeats a callback |
| Machine.TimerConservesCallbacks | index.js:143-148 | neither version of the timer loses or repeats a callback |
| Machine.ImmediateConservesCallbacks | index.js:74 | a deferred callback moves from waiting to run when its job runs |
| Machine.OnFlushConservesCallbacks | index.js:71-77 | onFlush adds exactly its callback to those waiting |
| Machine.SetConservesCallbacks | index.js:172-182 | set leaves the waiting and run callbacks alone |
| Machine.StepConservesCallbacks | index.js:71-96 | one event adds exactly the callback it registers to those waiting or run, and the run log only grows at its end |
| Machine.RunConservesCallbacks | index.js:71-96 | over any run, each registered callback is waiting or has run exactly once |
| Machine.RunCorrectedConservesCallbacks | index.js:71-96 | the same with the corrected timer |
| Machine.CooldownCallbackWaits | index.js:143-153 | as written, for any store in a cooldown with nothing pending, a callback registered then is still waiting on an idle store after the timer, so the store is not settled; the corrected timer runs it after those already waiting and leaves the store settled |
| Machine.CooldownCallbackStranded | index.js:143-153 | a concrete run of the above from a new store over an empty directory, for any writable configuration and any default object: `set('foo', 1)`, the save, the write finishing, `onFlush(7)`, the timer |
| Machine.StrandedUntilNextSave | index.js:143-148 | as written, such waiting callbacks stay waiting through every event except a later set or save |
| Machine.StepCorrectedSettles | index.js:143-153 | with the corrected timer, no event leaves an idle store with a callback waiting |
| Machine.RunCorrectedSettles | index.js:143-153 | with the corrected timer, an idle store never has a callback waiting, after any sequence of events |

## Left out

- Real `fs` calls, `setImmediate` and `setTimeout` are replaced by the abstract file map and by events. Each write cycle is one atomic event, so the model does not cover a crash between staging and install. The same goes for another process changing the files in between.
- A `writeFile` or final `rename` error throws, which crashes the process. The model has no such error: the temp write and the install always succeed.
- `fs.exists` is taken as exact. A slot whose `exists` check errs is not modelled.
- Loading.TryFile: reading a slot fails only when the slot is absent. The model reads every present slot and overwrites `last_saved_data_store` with its text. An unreadable present file is not modelled; like an absent one, it would leave `last_saved_data_store` alone.
- The JSON text format and `JSON.parse` are uninterpreted (`Codec`). The round trip is a stated hypothesis (`RoundTrips`), not a fact.
- FileStore.GetAfterSet: requires the document to be an object. Documents that are arrays or primitives own no keys in the model, and `set` on them leaves them unchanged. The document is never `null` or another falsy value, because the constructor keeps only truthy ones. For numbers and booleans the assignment is silently dropped, as the model does. For arrays and strings the model is wrong. On an array every assignment takes effect: index keys, `length` (`set('length', 0)` empties it) and any other name, and `get` then returns it. On a string, `get` sees its own index and `length` properties. The model treats `__proto__` as the inherited accessor of `Object.prototype`. After `set('__proto__', null)` removes the prototype, a later `set('__proto__', v)` would create an own property in JavaScript. The model still ignores it.
- Values passed to `set` are JSON values. `undefined`, functions, `NaN` and `Infinity`, objects with a `toJSON` method, and a value the caller changes after `set` (the store keeps a reference) are not modelled.
- `getStore` aliasing: direct edits to the document are not modelled. A direct `save()` call is the `SaveCalled` event.
- A callback's own actions (such as a re-entrant `set` or `onFlush` inside `callOnFlushCbs`) become later events. They do not happen between two callbacks of the same flush.
- Option values are non-negative integers, assumed small. Negative, fractional or non-numeric `max_backups` / `min_save_interval` values are not modelled. `tryFile` recurses once per slot, so a `max_backups` near the engine's stack depth, with no usable file, makes the constructor throw; the model has no stack limit. Backup numbers from 10^21 on would print in exponent notation; `Paths.Decimal` models plain digits only. `min_save_interval` only names the length of the cooldown event. `options` given as a bare string is the same as `{filename: options}` and is not modelled separately.
- Several stores or processes on one file: the source leaves this undefined.
- `example.js` and `thrash.js` are demo drivers with no logic.

## Findings

| source | as written | input that shows it | evidently intended | confidence | as-written member | corrected member |
|---|---|---|---|---|---|---|
| index.js:143-153 | the cooldown timer clears `writing` and saves again only if `needs_write`; it never runs `on_flush`, and callbacks are drained after the rename only, before the cooldown | `set('foo', 1)`; the queued save writes; the write finishes; `onFlush(cb)` during the cooldown is queued because `writing` is true; the timer fires with nothing pending, and `cb` waits on an idle store until some later save | a callback registered while the store is writing runs when that write cycle is over, so an idle store has no callback waiting | medium, not executed | Machine.CooldownCallbackWaits | Machine.RunCorrectedSettles |

`Machine.CooldownCallbackStranded` runs the input in the table from a new store over an empty directory; `Machine.OpenEmptyIsFresh` shows that this is the store the constructor builds. `FileStore.TimerFires` is the timer as written and `FileStore.TimerFiresDraining` is the corrected one. It also runs the waiting callbacks when nothing is pending. `Machine.Step` and `Machine.StepCorrected` differ only in which timer they use. Every other property is proved for both, or concerns events other than the timer.
