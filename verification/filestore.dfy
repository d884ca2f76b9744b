/** The FileStore object of index.js: its options, its fields, and its operations, each
    taken as one atomic step. The parts of the world the object drives asynchronously
    are explicit: the files (a Disk.FileSystem), the write or timer it is waiting on,
    the setImmediate queue, and the log of flush callbacks that have run. */
module FileStore {
  import opened Wrappers
  import opened JsonValues
  import opened Disk
  import Loading

  /** A flush callback, known only by an identity. */
  type CallbackId = nat

  /** The constructor's options. An absent default object is JNull; a zero number is
      the same as an absent one, since both are falsy. */
  datatype Options = Options(filename: string, defaultObject: Json, minSaveInterval: nat, maxBackups: nat, readOnly: bool)

  /** The options after the constructor's defaults are applied (index.js:38-43). */
  datatype Config = Config(basePath: string, defaultObject: Json, minSaveInterval: nat, maxBackups: nat, readOnly: bool)

  /** The constructor's option handling. An empty filename fails `assert.ok`; every
      falsy option, zero included, takes its default because it is read with `||`. */
  function Configure(o: Options): (r: Option<Config>)
    ensures r.None? <==> o.filename == ""
    ensures r.Some? ==> r.value.basePath == o.filename && r.value.readOnly == o.readOnly
    ensures r.Some? ==> Truthy(r.value.defaultObject) && 1 <= r.value.maxBackups && 1 <= r.value.minSaveInterval
    ensures r.Some? && Truthy(o.defaultObject) ==> r.value.defaultObject == o.defaultObject
    ensures r.Some? && o.maxBackups != 0 ==> r.value.maxBackups == o.maxBackups
    ensures r.Some? && o.minSaveInterval != 0 ==> r.value.minSaveInterval == o.minSaveInterval
    ensures r.Some? && !Truthy(o.defaultObject) ==> r.value.defaultObject == JObject([])
    ensures r.Some? && o.maxBackups == 0 ==> r.value.maxBackups == 3
    ensures r.Some? && o.minSaveInterval == 0 ==> r.value.minSaveInterval == 1000
  {
    if o.filename == "" then None
    else
      Some(Config(
        o.filename,
        if Truthy(o.defaultObject) then o.defaultObject else JObject([]),
        if o.minSaveInterval != 0 then o.minSaveInterval else 1000,
        if o.maxBackups != 0 then o.maxBackups else 3,
        o.readOnly))
  }

  /** The options a configuration would be given back as. */
  function AsOptions(c: Config): Options {
    Options(c.basePath, c.defaultObject, c.minSaveInterval, c.maxBackups, c.readOnly)
  }

  /** Option handling settles every option at once: a configuration, passed back as
      options, is accepted and comes out unchanged, so no default is ever applied twice. */
  lemma ConfigureIsIdempotent(o: Options)
    requires o.filename != ""
    ensures Configure(o).Some? && Configure(AsOptions(Configure(o).value)) == Configure(o)
  {
  }

  /** The object's own fields: data_store, writing, needs_write, last_saved_data_store
      and on_flush. */
  datatype Store = Store(config: Config, doc: Json, writing: bool, needsWrite: bool, lastSaved: string, onFlush: seq<CallbackId>)

  /** A job queued with setImmediate: a save (from set) or a flush callback (from onFlush). */
  datatype Task = SaveTask | FlushTask(cb: CallbackId)

  /** The asynchronous work the store waits on: nothing, the write cycle started by a
      save (writeFile, rotation, rename) carrying its payload, or the min_save_interval
      timer armed after the rename. */
  datatype Io = NoIo | WriteInFlight(payload: string) | CooldownTimer

  /** A store together with the world it drives. */
  datatype World = World(store: Store, disk: FileSystem, io: Io, immediates: seq<Task>, fired: seq<CallbackId>)

  /** new FileStore(options) over the files `disk` (index.js:30-69). */
  function Open(o: Options, disk: FileSystem, codec: Codec): (r: Option<World>)
    ensures r.None? <==> o.filename == ""
    ensures r.Some? ==> !r.value.store.writing && !r.value.store.needsWrite && r.value.store.onFlush == []
    ensures r.Some? ==> r.value.disk == disk && r.value.io == NoIo && r.value.immediates == [] && r.value.fired == []
    ensures r.Some? ==> Truthy(r.value.store.doc)
    ensures r.Some? ==> r.value.store.config == Configure(o).value
    ensures r.Some? ==> Loading.Loaded(r.value.store.doc, r.value.store.lastSaved)
                          == Loading.Load(disk, codec, r.value.store.config.maxBackups, r.value.store.config.defaultObject)
  {
    match Configure(o)
    case None => None
    case Some(c) =>
      var loaded := Loading.Load(disk, codec, c.maxBackups, c.defaultObject);
      Some(World(Store(c, loaded.doc, false, false, loaded.lastSaved, []), disk, NoIo, [], []))
  }

  /** The document has `key` as an own property (hasOwnProperty). Only objects are
      modelled as owning keys. */
  predicate Owns(doc: Json, key: string) {
    doc.JObject? && key in Keys(doc.members)
  }

  /** get(key, defvalue) (index.js:164-170). */
  function Get(s: Store, key: string, dflt: Json): Json {
    if Owns(s.doc, key) then Lookup(s.doc.members, key).value else dflt
  }

  /** The assignment data_store[key] = value. The document is never `null` or another
      falsy value, since the constructor keeps only truthy ones; assigning a property of
      a number or a boolean is silently dropped, so non-objects are left as they are. On an object that does not
      own `__proto__`, that name reaches the inherited accessor, which creates no own
      property. */
  function Put(doc: Json, key: string, value: Json): Json {
    if doc.JObject? && (key != "__proto__" || Owns(doc, key)) then JObject(Assign(doc.members, key, value))
    else doc
  }

  /** set(key, value) (index.js:172-182): the document changes at once; a save is queued
      with setImmediate only if none is pending, and a write is then always pending. */
  function SetKey(w: World, key: string, value: Json): (r: World)
    ensures r.store.needsWrite
    ensures r.immediates == w.immediates + (if w.store.needsWrite then [] else [SaveTask])
    ensures r.store == w.store.(doc := r.store.doc, needsWrite := true)
    ensures r.disk == w.disk && r.io == w.io && r.fired == w.fired
  {
    var s := w.store.(doc := Put(w.store.doc, key, value));
    if s.needsWrite then w.(store := s)
    else w.(store := s.(needsWrite := true), immediates := w.immediates + [SaveTask])
  }

  /** onFlush(cb) (index.js:71-77): with nothing written or pending the callback is
      deferred with setImmediate; otherwise it waits in on_flush. */
  function OnFlush(w: World, cb: CallbackId): (r: World)
    ensures !w.store.writing && !w.store.needsWrite ==> r == w.(immediates := w.immediates + [FlushTask(cb)])
    ensures w.store.writing || w.store.needsWrite ==> r == w.(store := w.store.(onFlush := w.store.onFlush + [cb]))
  {
    if !w.store.writing && !w.store.needsWrite then w.(immediates := w.immediates + [FlushTask(cb)])
    else w.(store := w.store.(onFlush := w.store.onFlush + [cb]))
  }

  /** callOnFlushCbs (index.js:87-96): every waiting callback runs once, in the order it
      was registered, and the queue is left empty. */
  function CallOnFlushCbs(w: World): (r: World)
    ensures r.fired == w.fired + w.store.onFlush && r.store.onFlush == []
    ensures r.store == w.store.(onFlush := []) && r.disk == w.disk && r.io == w.io && r.immediates == w.immediates
  {
    w.(store := w.store.(onFlush := []), fired := w.fired + w.store.onFlush)
  }

  /** save() (index.js:98-112). While a write is in flight it only marks one pending.
      Otherwise the document is serialised; text equal to the last saved text, or a
      read-only store, skips the write but still clears the pending mark and runs the
      waiting callbacks; any other text becomes the last saved text and starts one write. */
  function Save(w: World, stringify: Json -> string): World {
    if w.store.writing then w.(store := w.store.(needsWrite := true))
    else
      var data := stringify(w.store.doc);
      if data == w.store.lastSaved || w.store.config.readOnly then
        CallOnFlushCbs(w.(store := w.store.(needsWrite := false)))
      else
        w.(store := w.store.(lastSaved := data, writing := true, needsWrite := false), io := WriteInFlight(data))
  }

  /** The write cycle finishes (index.js:113-154): the payload lands in the primary
      after rotation, the min_save_interval timer is armed, and the waiting callbacks run
      only if no further write is pending. */
  function CompleteWrite(w: World, faults: set<nat>): (r: World)
    requires w.io.WriteInFlight?
    ensures r.disk == WriteCycle(w.disk, w.io.payload, w.store.config.maxBackups, faults)
    ensures r.io == CooldownTimer && r.immediates == w.immediates
    ensures w.store.needsWrite ==> r.store == w.store && r.fired == w.fired
    ensures !w.store.needsWrite ==> r.store == w.store.(onFlush := []) && r.fired == w.fired + w.store.onFlush
  {
    var installed := w.(disk := WriteCycle(w.disk, w.io.payload, w.store.config.maxBackups, faults), io := CooldownTimer);
    if w.store.needsWrite then installed else CallOnFlushCbs(installed)
  }

  /** The min_save_interval timer fires (index.js:143-148): writing is cleared, and
      save() runs again exactly when a write is pending. Waiting callbacks are not run on
      the other path. */
  function TimerFires(w: World, stringify: Json -> string): World {
    var idle := w.(store := w.store.(writing := false), io := NoIo);
    if idle.store.needsWrite then Save(idle, stringify) else idle
  }

  /** TimerFires as evidently intended: with nothing pending, the callbacks that were
      registered during the cooldown run instead of waiting for some later save. */
  function TimerFiresDraining(w: World, stringify: Json -> string): World {
    var idle := w.(store := w.store.(writing := false), io := NoIo);
    if idle.store.needsWrite then Save(idle, stringify) else CallOnFlushCbs(idle)
  }

  /** After set(key, value), get(key, _) returns value and every other key reads as
      before; a `__proto__` the object does not own stays unowned. */
  lemma GetAfterSet(w: World, key: string, value: Json, other: string, dflt: Json)
    requires w.store.doc.JObject?
    ensures key != "__proto__" || Owns(w.store.doc, key) ==> Get(SetKey(w, key, value).store, key, dflt) == value
    ensures key == "__proto__" && !Owns(w.store.doc, key) ==> Get(SetKey(w, key, value).store, key, dflt) == dflt
    ensures other != key ==> Get(SetKey(w, key, value).store, other, dflt) == Get(w.store, other, dflt)
  {
  }

  /** set keeps an object document a JavaScript object: distinct member names in
      enumeration order. A key it did not own before is listed last unless it is an
      array index; one it owned keeps its place. */
  lemma SetKeepsMemberOrder(w: World, key: string, value: Json)
    requires w.store.doc.JObject? && Enumerable(w.store.doc.members)
    ensures var d := SetKey(w, key, value).store.doc;
      && d.JObject? && Enumerable(d.members)
      && (Owns(w.store.doc, key) ==> Keys(d.members) == Keys(w.store.doc.members))
      && (!Owns(w.store.doc, key) && !IsArrayIndex(key) && key != "__proto__" ==>
            Keys(d.members) == Keys(w.store.doc.members) + [key])
  {
    if key != "__proto__" || Owns(w.store.doc, key) {
      AssignKeepsEnumerable(w.store.doc.members, key, value);
    }
  }

  /** Setting a key the document owns to the value it already holds leaves the document
      exactly as it was, member order included; the save that follows then finds the
      last saved text unchanged. */
  lemma SetSameValueKeepsDocument(w: World, key: string, dflt: Json)
    requires Owns(w.store.doc, key)
    ensures SetKey(w, key, Get(w.store, key, dflt)).store.doc == w.store.doc
  {
  }

  /** get on a key the document does not own returns the caller's default. */
  lemma GetMissing(s: Store, key: string, dflt: Json)
    requires !Owns(s.doc, key)
    ensures Get(s, key, dflt) == dflt
  {
  }

  /** save() while a write is in flight only marks a write pending. */
  lemma SaveWhileWriting(w: World, stringify: Json -> string)
    requires w.store.writing
    ensures Save(w, stringify) == w.(store := w.store.(needsWrite := true))
  {
  }

  /** A save whose text matches the last saved text, or on a read-only store, starts no
      write and keeps the last saved text, but clears the pending mark and runs and
      empties the flush queue. */
  lemma SkippedSave(w: World, stringify: Json -> string)
    requires !w.store.writing
    requires stringify(w.store.doc) == w.store.lastSaved || w.store.config.readOnly
    ensures var r := Save(w, stringify);
      && r.io == w.io && r.disk == w.disk && r.immediates == w.immediates
      && r.store.lastSaved == w.store.lastSaved && !r.store.needsWrite && !r.store.writing
      && r.store.onFlush == [] && r.fired == w.fired + w.store.onFlush
  {
  }

  /** Any other save starts exactly one write of the new text. */
  lemma RealSave(w: World, stringify: Json -> string)
    requires !w.store.writing
    requires stringify(w.store.doc) != w.store.lastSaved && !w.store.config.readOnly
    ensures var r := Save(w, stringify);
      && r.io == WriteInFlight(stringify(w.store.doc)) && r.store.lastSaved == stringify(w.store.doc)
      && r.store.writing && !r.store.needsWrite
      && r.store.onFlush == w.store.onFlush && r.fired == w.fired && r.disk == w.disk
  {
  }

  /** set on an empty object makes the key its only member. */
  lemma PutIntoEmpty(key: string, value: Json)
    requires key != "__proto__"
    ensures Put(JObject([]), key, value) == JObject([(key, value)])
  {
  }
}
