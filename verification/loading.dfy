/** Start-up: the constructor's tryFile walk over the primary and its backups. */
module Loading {
  import opened Wrappers
  import opened JsonValues
  import opened Disk

  /** What construction leaves in the store: the document (data_store) and the text
      last read from disk (last_saved_data_store). */
  datatype Loaded = Loaded(doc: Json, lastSaved: string)

  /** Slot `i` can be read and JSON.parse of its text gives a truthy value: the only
      case tryFile accepts. */
  predicate Usable(fs: FileSystem, codec: Codec, i: nat) {
    Chain(i) in fs && codec.parse(fs[Chain(i)]).Some? && Truthy(codec.parse(fs[Chain(i)]).value)
  }

  /** The value parsed from a usable slot. */
  function Parsed(fs: FileSystem, codec: Codec, i: nat): Json
    requires Usable(fs, codec, i)
  {
    codec.parse(fs[Chain(i)]).value
  }

  /** No slot in `lo..hi-1` is usable. */
  ghost predicate NoneUsable(fs: FileSystem, codec: Codec, lo: nat, hi: nat) {
    forall j: nat | lo <= j < hi :: !Usable(fs, codec, j)
  }

  /** Slot `i` exists. */
  predicate Present(fs: FileSystem, i: nat) {
    Chain(i) in fs
  }

  /** No slot in `lo..hi-1` exists. */
  ghost predicate NonePresent(fs: FileSystem, lo: nat, hi: nat) {
    forall j: nat | lo <= j < hi :: !Present(fs, j)
  }

  /** tryFile(retries) (index.js:49-67). The text of every slot that reads successfully
      overwrites `lastSaved`, even when it then fails to parse; a slot whose text parses
      to a falsy value is a failure like one that does not parse; after slot
      `maxBackups` the walk gives up with the default object. The result is the first
      usable slot from `retries` on, or the default, and the text of the last slot read. */
  function TryFile(fs: FileSystem, codec: Codec, retries: nat, maxBackups: nat, dflt: Json, lastSaved: string): (r: Loaded)
    requires retries <= maxBackups
    ensures forall i: nat {:trigger NoneUsable(fs, codec, retries, i)} | retries <= i <= maxBackups && Usable(fs, codec, i) && NoneUsable(fs, codec, retries, i) ::
              r.doc == Parsed(fs, codec, i) && r.lastSaved == fs[Chain(i)]
    ensures NoneUsable(fs, codec, retries, maxBackups + 1) ==> r.doc == dflt
    ensures r.doc == dflt || Truthy(r.doc)
    ensures NoneUsable(fs, codec, retries, maxBackups + 1) && NonePresent(fs, retries, maxBackups + 1) ==> r.lastSaved == lastSaved
    ensures forall i: nat {:trigger fs[Chain(i)]} | retries <= i <= maxBackups && Present(fs, i) && NonePresent(fs, i + 1, maxBackups + 1) ::
              NoneUsable(fs, codec, retries, maxBackups + 1) ==> r.lastSaved == fs[Chain(i)]
    decreases maxBackups - retries
  {
    var seen := if Present(fs, retries) then fs[Chain(retries)] else lastSaved;
    if Usable(fs, codec, retries) then Loaded(Parsed(fs, codec, retries), seen)
    else if retries >= maxBackups then Loaded(dflt, seen)
    else
      assert forall i: nat {:trigger NoneUsable(fs, codec, retries, i)} | retries < i && NoneUsable(fs, codec, retries, i) ::
        NoneUsable(fs, codec, retries + 1, i);
      TryFile(fs, codec, retries + 1, maxBackups, dflt, seen)
  }

  /** The constructor's load: tryFile(0) with last_saved_data_store starting empty. */
  function Load(fs: FileSystem, codec: Codec, maxBackups: nat, dflt: Json): Loaded {
    TryFile(fs, codec, 0, maxBackups, dflt, "")
  }

  /** One step of the walk: slot `retries` decides, or the walk moves on with its text. */
  lemma TryFileUnfold(fs: FileSystem, codec: Codec, retries: nat, maxBackups: nat, dflt: Json, lastSaved: string)
    requires retries <= maxBackups
    ensures var seen := if Chain(retries) in fs then fs[Chain(retries)] else lastSaved;
            TryFile(fs, codec, retries, maxBackups, dflt, lastSaved) ==
              if Usable(fs, codec, retries) then Loaded(Parsed(fs, codec, retries), seen)
              else if retries == maxBackups then Loaded(dflt, seen)
              else TryFile(fs, codec, retries + 1, maxBackups, dflt, seen)
  {
  }

  /** Only slots `0..maxBackups` matter: two directories that agree on them load the same. */
  lemma {:induction false} TryFileIgnoresDeeperSlots(fs: FileSystem, fs': FileSystem, codec: Codec, retries: nat, maxBackups: nat, dflt: Json, lastSaved: string)
    requires retries <= maxBackups
    requires forall i: nat {:trigger SameAt(fs, fs', Chain(i))} | i <= maxBackups :: SameAt(fs, fs', Chain(i))
    ensures TryFile(fs, codec, retries, maxBackups, dflt, lastSaved) == TryFile(fs', codec, retries, maxBackups, dflt, lastSaved)
    decreases maxBackups - retries
  {
    assert SameAt(fs, fs', Chain(retries));
    TryFileUnfold(fs, codec, retries, maxBackups, dflt, lastSaved);
    TryFileUnfold(fs', codec, retries, maxBackups, dflt, lastSaved);
    if !Usable(fs, codec, retries) && retries < maxBackups {
      var seen := if Chain(retries) in fs then fs[Chain(retries)] else lastSaved;
      TryFileIgnoresDeeperSlots(fs, fs', codec, retries + 1, maxBackups, dflt, seen);
    }
  }

  /** After a write of a document whose text parses back to it, a fresh load returns that
      document and remembers its text, whatever the rotation did. */
  lemma ReloadAfterWrite(fs: FileSystem, codec: Codec, d: Json, maxBackups: nat, faults: set<nat>, dflt: Json)
    requires RoundTrips(codec, d) && Truthy(d)
    ensures Load(WriteCycle(fs, codec.stringify(d), maxBackups, faults), codec, maxBackups, dflt) == Loaded(d, codec.stringify(d))
  {
    var fs' := WriteCycle(fs, codec.stringify(d), maxBackups, faults);
    assert Usable(fs', codec, 0) && NoneUsable(fs', codec, 0, 0);
  }
}
