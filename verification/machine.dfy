/** The store as a state machine driven by explicit events, with the invariants its
    scheduler keeps and the properties of event sequences. The events are the calls a
    program makes (set, onFlush, a direct save after getStore) and the moments the
    event loop picks: a setImmediate job runs, the write cycle finishes, the
    min_save_interval timer fires. */
module Machine {
  import opened JsonValues
  import opened Disk
  import opened FileStore
  import Loading
  import Wrappers

  datatype Event =
    | SetCalled(key: string, value: Json)
    | OnFlushCalled(cb: CallbackId)
    | SaveCalled
    | ImmediateRuns
    | WriteFinishes(faults: set<nat>)
    | TimerExpires

  /** The oldest setImmediate job runs. */
  function RunTask(w: World, t: Task, stringify: Json -> string): World {
    match t
    case SaveTask => Save(w, stringify)
    case FlushTask(cb) => w.(fired := w.fired + [cb])
  }

  /** Every event except the timer, on which the machines below differ. An event whose
      moment has not come (no job queued, no write in flight) leaves the world as it is. */
  function StepOther(w: World, e: Event, stringify: Json -> string): World {
    match e
    case SetCalled(k, v) => SetKey(w, k, v)
    case OnFlushCalled(cb) => OnFlush(w, cb)
    case SaveCalled => Save(w, stringify)
    case ImmediateRuns =>
      if w.immediates == [] then w else RunTask(w.(immediates := w.immediates[1..]), w.immediates[0], stringify)
    case WriteFinishes(faults) => if w.io.WriteInFlight? then CompleteWrite(w, faults) else w
    case TimerExpires => w
  }

  /** One event, as index.js does it. */
  function Step(w: World, e: Event, stringify: Json -> string): World {
    if e.TimerExpires? then (if w.io.CooldownTimer? then TimerFires(w, stringify) else w)
    else StepOther(w, e, stringify)
  }

  /** One event, with the timer that also runs the callbacks waiting when nothing is pending. */
  function StepCorrected(w: World, e: Event, stringify: Json -> string): World {
    if e.TimerExpires? then (if w.io.CooldownTimer? then TimerFiresDraining(w, stringify) else w)
    else StepOther(w, e, stringify)
  }

  function Run(w: World, es: seq<Event>, stringify: Json -> string): World
    decreases |es|
  {
    if es == [] then w else Run(Step(w, es[0], stringify), es[1..], stringify)
  }

  function RunCorrected(w: World, es: seq<Event>, stringify: Json -> string): World
    decreases |es|
  {
    if es == [] then w else RunCorrected(StepCorrected(w, es[0], stringify), es[1..], stringify)
  }

  /** The scheduler's invariant. `writing` is set exactly while a write or its cooldown
      timer is outstanding; the write in flight carries the last saved text; and a
      pending write is never forgotten: either a save job is queued or the timer of the
      current write will save again. */
  ghost predicate Inv(w: World) {
    && IoTracked(w)
    && (w.store.needsWrite ==> w.store.writing || SaveTask in w.immediates)
  }

  /** The first half of Inv: `writing` mirrors the outstanding write or timer, and the
      write in flight carries the last saved text. */
  ghost predicate IoTracked(w: World) {
    && (w.store.writing <==> !w.io.NoIo?)
    && (w.io.WriteInFlight? ==> w.io.payload == w.store.lastSaved)
  }

  /** Inv, plus: a store with nothing written or pending has no callback waiting. */
  ghost predicate Settled(w: World) {
    && Inv(w)
    && (!w.store.writing && !w.store.needsWrite ==> w.store.onFlush == [])
  }

  /** A freshly opened store is settled. */
  lemma OpenIsSettled(o: Options, disk: FileSystem, codec: Codec)
    requires o.filename != ""
    ensures Open(o, disk, codec).Some? && Settled(Open(o, disk, codec).value)
  {
  }

  /** A save re-establishes Inv even when the job that ran it was the last one queued. */
  lemma SaveKeepsInv(w: World, stringify: Json -> string)
    requires IoTracked(w)
    ensures Inv(Save(w, stringify))
  {
  }

  lemma StepOtherKeepsInv(w: World, e: Event, stringify: Json -> string)
    requires Inv(w)
    ensures Inv(StepOther(w, e, stringify))
  {
    if e.ImmediateRuns? && w.immediates != [] {
      var rest := w.immediates[1..];
      if w.immediates[0] == SaveTask {
        SaveKeepsInv(w.(immediates := rest), stringify);
      } else {
        assert w.immediates == [w.immediates[0]] + rest;
      }
    }
  }

  /** Every event keeps Inv, under either timer. */
  lemma StepKeepsInv(w: World, e: Event, stringify: Json -> string)
    requires Inv(w)
    ensures Inv(Step(w, e, stringify)) && Inv(StepCorrected(w, e, stringify))
  {
    if e.TimerExpires? {
      if w.io.CooldownTimer? && w.store.needsWrite {
        SaveKeepsInv(w.(store := w.store.(writing := false), io := NoIo), stringify);
      }
    } else {
      StepOtherKeepsInv(w, e, stringify);
    }
  }

  /** Inv holds after any sequence of events. */
  lemma {:induction false} RunKeepsInv(w: World, es: seq<Event>, stringify: Json -> string)
    requires Inv(w)
    ensures Inv(Run(w, es, stringify))
    decreases |es|
  {
    if es != [] {
      StepKeepsInv(w, es[0], stringify);
      RunKeepsInv(Step(w, es[0], stringify), es[1..], stringify);
    }
  }

  /** With the corrected timer, no callback is ever left waiting on a store that has
      nothing written or pending. */
  lemma StepCorrectedSettles(w: World, e: Event, stringify: Json -> string)
    requires Settled(w)
    ensures Settled(StepCorrected(w, e, stringify))
  {
    StepKeepsInv(w, e, stringify);
  }

  /** Settled holds after any sequence of events under the corrected timer. */
  lemma {:induction false} RunCorrectedSettles(w: World, es: seq<Event>, stringify: Json -> string)
    requires Settled(w)
    ensures Settled(RunCorrected(w, es, stringify))
    decreases |es|
  {
    if es != [] {
      StepCorrectedSettles(w, es[0], stringify);
      RunCorrectedSettles(StepCorrected(w, es[0], stringify), es[1..], stringify);
    }
  }

  /** The only event that clears `writing` is the cooldown timer. */
  lemma OnlyTimerClearsWriting(w: World, e: Event, stringify: Json -> string)
    requires Inv(w) && w.store.writing
    requires !Step(w, e, stringify).store.writing || !StepCorrected(w, e, stringify).store.writing
    ensures e.TimerExpires? && w.io.CooldownTimer?
  {
  }

  /** When the timer fires, save() runs again exactly when a write is pending: with
      nothing pending, the store only drops `writing`. */
  lemma TimerSavesIffPending(w: World, stringify: Json -> string)
    requires Inv(w) && w.io.CooldownTimer?
    ensures var r := Step(w, TimerExpires, stringify);
      && (w.store.needsWrite ==> r == Save(w.(store := w.store.(writing := false), io := NoIo), stringify))
      && (!w.store.needsWrite ==> r.store == w.store.(writing := false) && r.io == NoIo && r.fired == w.fired)
  {
  }

  /** A write starts only from a store with nothing outstanding, or from the timer that
      ends the previous write's cooldown; it marks the store writing and clears the
      pending mark, and its payload is the new last saved text. */
  lemma WriteStartsOnlyWhenIdle(w: World, e: Event, stringify: Json -> string)
    requires Inv(w) && !w.io.WriteInFlight?
    requires Step(w, e, stringify).io.WriteInFlight?
    ensures w.io.NoIo? || (e.TimerExpires? && w.io.CooldownTimer? && w.store.needsWrite)
    ensures var r := Step(w, e, stringify);
      r.store.writing && !r.store.needsWrite && r.io.payload == r.store.lastSaved == stringify(w.store.doc)
  {
  }

  /** Pacing: until the cooldown timer fires, no write starts and the files do not change,
      whatever else happens. */
  lemma {:induction false} CooldownHoldsWrites(w: World, es: seq<Event>, stringify: Json -> string)
    requires Inv(w) && w.io.CooldownTimer?
    requires forall i | 0 <= i < |es| :: !es[i].TimerExpires?
    ensures Run(w, es, stringify).io == CooldownTimer
    ensures Run(w, es, stringify).disk == w.disk
    ensures Run(w, es, stringify).store.writing
    decreases |es|
  {
    if es != [] {
      StepKeepsInv(w, es[0], stringify);
      CooldownHoldsWrites(Step(w, es[0], stringify), es[1..], stringify);
    }
  }

  /** Debounce: any number of set calls queue at most one save between them, exactly one
      when none was pending, and leave a write pending; nothing else but the document changes. */
  lemma {:induction false} SetsCoalesce(w: World, es: seq<Event>, stringify: Json -> string)
    requires forall i | 0 <= i < |es| :: es[i].SetCalled?
    ensures var r := Run(w, es, stringify);
      && r.immediates == w.immediates + (if w.store.needsWrite || es == [] then [] else [SaveTask])
      && (es != [] ==> r.store.needsWrite)
      && r.store.writing == w.store.writing && r.store.lastSaved == w.store.lastSaved
      && r.store.onFlush == w.store.onFlush
      && r.disk == w.disk && r.io == w.io && r.fired == w.fired
    decreases |es|
  {
    if es != [] {
      var w' := Step(w, es[0], stringify);
      SetsCoalesce(w', es[1..], stringify);
    }
  }

  /** A write in flight is never replaced or dropped: every event but its own completion
      leaves it in flight, and the completion starts the cooldown. */
  lemma InFlightOnlyEndsByFinishing(w: World, e: Event, stringify: Json -> string)
    requires Inv(w) && w.io.WriteInFlight?
    ensures Step(w, e, stringify).io == w.io || (e.WriteFinishes? && Step(w, e, stringify).io == CooldownTimer)
    ensures StepCorrected(w, e, stringify) == Step(w, e, stringify)
  {
  }

  /** Until it finishes, a write in flight stays in flight with the same payload, the store
      stays writing, and the files do not change, whatever else happens. */
  lemma {:induction false} WriteInFlightSurvives(w: World, es: seq<Event>, stringify: Json -> string)
    requires Inv(w) && w.io.WriteInFlight?
    requires forall i | 0 <= i < |es| :: !es[i].WriteFinishes?
    ensures Run(w, es, stringify).io == w.io
    ensures Run(w, es, stringify).disk == w.disk
    ensures Run(w, es, stringify).store.writing
    decreases |es|
  {
    if es != [] {
      InFlightOnlyEndsByFinishing(w, es[0], stringify);
      StepKeepsInv(w, es[0], stringify);
      WriteInFlightSurvives(Step(w, es[0], stringify), es[1..], stringify);
    }
  }

  /** Running events one after another: the last event acts on the world the others left. */
  lemma {:induction false} RunSnoc(w: World, es: seq<Event>, e: Event, stringify: Json -> string)
    ensures Run(w, es + [e], stringify) == Step(Run(w, es, stringify), e, stringify)
    decreases |es|
  {
    if es == [] {
      assert es + [e] == [e];
    } else {
      assert (es + [e])[1..] == es[1..] + [e];
      RunSnoc(Step(w, es[0], stringify), es[1..], e, stringify);
    }
  }

  /** Two events in a row. */
  lemma RunTwo(w: World, e1: Event, e2: Event, stringify: Json -> string)
    ensures Run(w, [e1, e2], stringify) == Step(Step(w, e1, stringify), e2, stringify)
  {
    var w1 := Step(w, e1, stringify);
    var w2 := Step(w1, e2, stringify);
    assert [e1, e2][0] == e1 && [e1, e2][1..] == [e2];
    assert [e2][0] == e2 && [e2][1..] == [];
    assert Run(w2, [], stringify) == w2;
    assert Run(w1, [e2], stringify) == Run(w2, [], stringify);
    assert Run(w, [e1, e2], stringify) == Run(w1, [e2], stringify);
  }

  /** Three events in a row. */
  lemma RunThree(w: World, e1: Event, e2: Event, e3: Event, stringify: Json -> string)
    ensures Run(w, [e1, e2, e3], stringify) == Step(Step(Step(w, e1, stringify), e2, stringify), e3, stringify)
  {
    assert [e1, e2, e3][1..] == [e2, e3];
    RunTwo(Step(w, e1, stringify), e2, e3, stringify);
  }

  /** A save called while a write is in flight is not lost: once that write finishes and
      its cooldown ends, a write of the document as it then stands starts, unless its text
      is the one just written or the store is read-only. */
  lemma SaveDuringWriteIsDeferred(w: World, faults: set<nat>, stringify: Json -> string)
    requires Inv(w) && w.io.WriteInFlight?
    ensures var r := Run(w, [SaveCalled, WriteFinishes(faults), TimerExpires], stringify);
      && !r.store.needsWrite
      && (stringify(w.store.doc) != w.store.lastSaved && !w.store.config.readOnly ==>
            r.io == WriteInFlight(stringify(w.store.doc)) && r.store.lastSaved == stringify(w.store.doc))
      && (stringify(w.store.doc) == w.store.lastSaved || w.store.config.readOnly ==>
            r.io == NoIo && r.store.lastSaved == w.store.lastSaved)
  {
    SaveWhileWriting(w, stringify);
    var w1 := Step(w, SaveCalled, stringify);
    assert w1.store.needsWrite && w1.io == w.io && w1.store.doc == w.store.doc;
    var w2 := Step(w1, WriteFinishes(faults), stringify);
    assert w2.io == CooldownTimer && w2.store.needsWrite && w2.store.doc == w.store.doc;
    assert w2.store.lastSaved == w.store.lastSaved;
    RunThree(w, SaveCalled, WriteFinishes(faults), TimerExpires, stringify);
  }

  /** A save with new text on an idle store persists the document: once the write finishes,
      the primary holds its text, no staging file is left, and, if parsing inverts
      serialising, a store opened on those files loads that document back. */
  lemma SavePersistsDocument(w: World, faults: set<nat>, codec: Codec, dflt: Json)
    requires Inv(w) && w.io.NoIo? && !w.store.config.readOnly
    requires codec.stringify(w.store.doc) != w.store.lastSaved
    ensures var r := Run(w, [SaveCalled, WriteFinishes(faults)], codec.stringify);
      && Chain(0) in r.disk && r.disk[Chain(0)] == codec.stringify(w.store.doc) == r.store.lastSaved
      && Tmp !in r.disk && r.io == CooldownTimer && r.store.writing
      && (RoundTrips(codec, w.store.doc) && Truthy(w.store.doc) ==>
            Loading.Load(r.disk, codec, w.store.config.maxBackups, dflt) == Loading.Loaded(w.store.doc, codec.stringify(w.store.doc)))
  {
    var text := codec.stringify(w.store.doc);
    RealSave(w, codec.stringify);
    var w1 := Step(w, SaveCalled, codec.stringify);
    assert w1.io == WriteInFlight(text) && w1.store.lastSaved == text && w1.disk == w.disk;
    var w2 := Step(w1, WriteFinishes(faults), codec.stringify);
    assert w2.disk == WriteCycle(w.disk, text, w.store.config.maxBackups, faults);
    RunTwo(w, SaveCalled, WriteFinishes(faults), codec.stringify);
    if RoundTrips(codec, w.store.doc) && Truthy(w.store.doc) {
      Loading.ReloadAfterWrite(w.disk, codec, w.store.doc, w.store.config.maxBackups, faults, dflt);
    }
  }

  /** Reopening after a save: a new FileStore, with any options naming a file, over the
      files a real save left once its write finished holds the saved document, with its
      text as the last saved text, provided parsing inverts serialising on it. */
  lemma ReopenAfterSave(w: World, o: Options, faults: set<nat>, codec: Codec)
    requires Inv(w) && w.io.NoIo? && !w.store.config.readOnly
    requires codec.stringify(w.store.doc) != w.store.lastSaved
    requires RoundTrips(codec, w.store.doc) && Truthy(w.store.doc) && o.filename != ""
    ensures var r := Run(w, [SaveCalled, WriteFinishes(faults)], codec.stringify);
      var reopened := Open(o, r.disk, codec);
      && reopened.Some? && reopened.value.store.doc == w.store.doc
      && reopened.value.store.lastSaved == codec.stringify(w.store.doc)
      && reopened.value.store.config == Configure(o).value
  {
    var r := Run(w, [SaveCalled, WriteFinishes(faults)], codec.stringify);
    SavePersistsDocument(w, faults, codec, JNull);
    assert Loading.Usable(r.disk, codec, 0) && Loading.NoneUsable(r.disk, codec, 0, 0);
  }

  /** When a write finishes, the primary holds the text the store last saved and no staging
      file is left, whatever the rotation faults; the store stays writing for the cooldown. */
  lemma FinishedWriteHoldsLastSaved(w: World, faults: set<nat>, stringify: Json -> string)
    requires Inv(w) && w.io.WriteInFlight?
    ensures var r := Step(w, WriteFinishes(faults), stringify);
      && Chain(0) in r.disk && r.disk[Chain(0)] == w.store.lastSaved == r.store.lastSaved
      && Tmp !in r.disk && r.io == CooldownTimer && r.store.writing
  {
  }

  /** A set that leaves the serialised document equal to the last saved text, or any set
      on a read-only store, writes nothing, yet a callback registered after it still runs
      when the queued save runs, after the ones already waiting. */
  lemma NoOpSetStillFlushes(w: World, key: string, value: Json, cb: CallbackId, stringify: Json -> string)
    requires Inv(w) && w.io.NoIo? && !w.store.needsWrite && w.immediates == []
    requires stringify(Put(w.store.doc, key, value)) == w.store.lastSaved || w.store.config.readOnly
    ensures var r := Run(w, [SetCalled(key, value), OnFlushCalled(cb), ImmediateRuns], stringify);
      && r.disk == w.disk && r.io == NoIo && !r.store.writing && !r.store.needsWrite
      && r.store.lastSaved == w.store.lastSaved && r.immediates == []
      && r.store.onFlush == [] && r.fired == w.fired + w.store.onFlush + [cb]
  {
    var w1 := w.(store := w.store.(doc := Put(w.store.doc, key, value), needsWrite := true), immediates := [SaveTask]);
    assert Step(w, SetCalled(key, value), stringify) == w1;
    var w2 := w1.(store := w1.store.(onFlush := w.store.onFlush + [cb]));
    assert Step(w1, OnFlushCalled(cb), stringify) == w2;
    assert Step(w2, ImmediateRuns, stringify) == Save(w2.(immediates := []), stringify);
    SkippedSave(w2.(immediates := []), stringify);
    RunThree(w, SetCalled(key, value), OnFlushCalled(cb), ImmediateRuns, stringify);
  }

  /** The same during the cooldown of a write, as when the no-op set is made from a flush
      callback: the timer's save finds the text unchanged (or the store read-only), writes
      nothing, and runs the callback after those already waiting. */
  lemma CooldownNoOpSetFlushes(w: World, key: string, value: Json, cb: CallbackId, stringify: Json -> string)
    requires Inv(w) && w.io.CooldownTimer? && !w.store.needsWrite && w.immediates == []
    requires stringify(Put(w.store.doc, key, value)) == w.store.lastSaved || w.store.config.readOnly
    ensures var r := Run(w, [SetCalled(key, value), OnFlushCalled(cb), ImmediateRuns, TimerExpires], stringify);
      && r.disk == w.disk && r.io == NoIo && !r.store.writing && !r.store.needsWrite
      && r.store.lastSaved == w.store.lastSaved && r.immediates == []
      && r.store.onFlush == [] && r.fired == w.fired + w.store.onFlush + [cb]
  {
    var w1 := w.(store := w.store.(doc := Put(w.store.doc, key, value), needsWrite := true), immediates := [SaveTask]);
    assert Step(w, SetCalled(key, value), stringify) == w1;
    var w2 := w1.(store := w1.store.(onFlush := w.store.onFlush + [cb]));
    assert Step(w1, OnFlushCalled(cb), stringify) == w2;
    var w3 := w2.(immediates := []);
    assert Step(w2, ImmediateRuns, stringify) == w3;
    TimerSavesIffPending(w3, stringify);
    SkippedSave(w3.(store := w3.store.(writing := false), io := NoIo), stringify);
    RunThree(w, SetCalled(key, value), OnFlushCalled(cb), ImmediateRuns, stringify);
    RunSnoc(w, [SetCalled(key, value), OnFlushCalled(cb), ImmediateRuns], TimerExpires, stringify);
    assert [SetCalled(key, value), OnFlushCalled(cb), ImmediateRuns] + [TimerExpires]
        == [SetCalled(key, value), OnFlushCalled(cb), ImmediateRuns, TimerExpires];
  }

  /** onFlush on a store with nothing written or pending runs the callback as the next
      setImmediate job, and changes nothing else. */
  lemma IdleOnFlushRunsNext(w: World, cb: CallbackId, stringify: Json -> string)
    requires !w.store.writing && !w.store.needsWrite && w.immediates == []
    ensures var r := Run(w, [OnFlushCalled(cb), ImmediateRuns], stringify);
      && r.fired == w.fired + [cb] && r.store == w.store && r.immediates == []
      && r.disk == w.disk && r.io == w.io
  {
    RunTwo(w, OnFlushCalled(cb), ImmediateRuns, stringify);
  }

  /** onFlush calls while a write is in flight queue their callbacks in on_flush, in
      registration order, and change nothing else. */
  lemma {:induction false} OnFlushWhileWriting(w: World, es: seq<Event>, stringify: Json -> string)
    requires w.store.writing
    requires forall i | 0 <= i < |es| :: es[i].OnFlushCalled?
    ensures Run(w, es, stringify) == w.(store := w.store.(onFlush := w.store.onFlush + Registered(es)))
    decreases |es|
  {
    if es == [] {
      assert w.store.onFlush + [] == w.store.onFlush;
    } else {
      var cb, rest := es[0].cb, Registered(es[1..]);
      var w' := w.(store := w.store.(onFlush := w.store.onFlush + [cb]));
      assert Step(w, es[0], stringify) == w';
      assert Run(w, es, stringify) == Run(w', es[1..], stringify);
      assert Registered(es) == [cb] + rest;
      OnFlushWhileWriting(w', es[1..], stringify);
      assert w.store.onFlush + [cb] + rest == w.store.onFlush + ([cb] + rest);
    }
  }

  /** Callbacks registered while a write is in flight all run, in registration order after
      those already waiting, as soon as that write finishes with nothing pending. */
  lemma FlushRunsInRegistrationOrder(w: World, es: seq<Event>, faults: set<nat>, stringify: Json -> string)
    requires Inv(w) && w.io.WriteInFlight? && !w.store.needsWrite
    requires forall i | 0 <= i < |es| :: es[i].OnFlushCalled?
    ensures Run(w, es, stringify).store.onFlush == w.store.onFlush + Registered(es)
    ensures Run(w, es + [WriteFinishes(faults)], stringify).fired == w.fired + w.store.onFlush + Registered(es)
    ensures Run(w, es + [WriteFinishes(faults)], stringify).store.onFlush == []
  {
    OnFlushWhileWriting(w, es, stringify);
    RunSnoc(w, es, WriteFinishes(faults), stringify);
  }

  /** The callbacks of the flush jobs in a setImmediate queue, in queue order. */
  function FlushJobs(ts: seq<Task>): seq<CallbackId>
    decreases |ts|
  {
    if ts == [] then [] else (if ts[0].FlushTask? then [ts[0].cb] else []) + FlushJobs(ts[1..])
  }

  /** Every callback registered and not yet run: those in on_flush and those deferred with setImmediate. */
  function Waiting(w: World): seq<CallbackId> {
    w.store.onFlush + FlushJobs(w.immediates)
  }

  /** The callbacks registered by a sequence of events. */
  function Registered(es: seq<Event>): seq<CallbackId>
    decreases |es|
  {
    if es == [] then [] else (if es[0].OnFlushCalled? then [es[0].cb] else []) + Registered(es[1..])
  }

  /** The first event's callback comes first among those a sequence registers. */
  lemma RegisteredCons(es: seq<Event>)
    requires es != []
    ensures Registered(es) == Registered([es[0]]) + Registered(es[1..])
  {
    assert [es[0]][1..] == [];
  }

  lemma {:induction false} FlushJobsAppend(ts: seq<Task>, t: Task)
    ensures FlushJobs(ts + [t]) == FlushJobs(ts) + (if t.FlushTask? then [t.cb] else [])
    decreases |ts|
  {
    if ts != [] {
      assert (ts + [t])[1..] == ts[1..] + [t];
      FlushJobsAppend(ts[1..], t);
    }
  }

  /** From `w` to `r`, each callback runs at most once and none is lost: what is waiting
      plus what has run grows by exactly `registered`, and the log of run callbacks only
      grows at its end. */
  ghost predicate Conserves(w: World, r: World, registered: seq<CallbackId>) {
    && w.fired <= r.fired
    && multiset(Waiting(r)) + multiset(r.fired) == multiset(Waiting(w)) + multiset(w.fired) + multiset(registered)
  }

  /** Flushes that happen inside a save neither lose nor duplicate a callback. */
  lemma SaveConservesCallbacks(w: World, stringify: Json -> string)
    ensures Conserves(w, Save(w, stringify), [])
  {
  }

  /** The same for both versions of the timer. */
  lemma TimerConservesCallbacks(w: World, stringify: Json -> string)
    ensures Conserves(w, TimerFires(w, stringify), [])
    ensures Conserves(w, TimerFiresDraining(w, stringify), [])
  {
    SaveConservesCallbacks(w.(store := w.store.(writing := false), io := NoIo), stringify);
  }

  /** A queued job that runs moves its callback, if any, from waiting to run. */
  lemma ImmediateConservesCallbacks(w: World, stringify: Json -> string)
    requires w.immediates != []
    ensures Conserves(w, RunTask(w.(immediates := w.immediates[1..]), w.immediates[0], stringify), [])
  {
    var rest := w.immediates[1..];
    var t := w.immediates[0];
    assert FlushJobs(w.immediates) == (if t.FlushTask? then [t.cb] else []) + FlushJobs(rest);
    if t == SaveTask {
      SaveConservesCallbacks(w.(immediates := rest), stringify);
    }
  }

  /** Registering a callback adds it to the waiting ones, wherever it waits. */
  lemma OnFlushConservesCallbacks(w: World, cb: CallbackId)
    ensures Conserves(w, OnFlush(w, cb), [cb])
  {
    FlushJobsAppend(w.immediates, FlushTask(cb));
  }

  lemma SetConservesCallbacks(w: World, key: string, value: Json)
    ensures Conserves(w, SetKey(w, key, value), [])
  {
    FlushJobsAppend(w.immediates, SaveTask);
  }

  /** One event conserves callbacks, under either timer: it adds exactly the callback it
      registers. */
  lemma StepConservesCallbacks(w: World, e: Event, stringify: Json -> string)
    ensures Conserves(w, Step(w, e, stringify), Registered([e]))
    ensures Conserves(w, StepCorrected(w, e, stringify), Registered([e]))
  {
    assert Registered([e]) == (if e.OnFlushCalled? then [e.cb] else []);
    match e
    case SetCalled(k, v) => SetConservesCallbacks(w, k, v);
    case OnFlushCalled(cb) => OnFlushConservesCallbacks(w, cb);
    case SaveCalled => SaveConservesCallbacks(w, stringify);
    case ImmediateRuns =>
      if w.immediates != [] {
        ImmediateConservesCallbacks(w, stringify);
      }
    case WriteFinishes(faults) =>
    case TimerExpires => TimerConservesCallbacks(w, stringify);
  }

  /** Conservation composes along a run. */
  lemma ConservesChain(a: World, b: World, c: World, r1: seq<CallbackId>, r2: seq<CallbackId>)
    requires Conserves(a, b, r1) && Conserves(b, c, r2)
    ensures Conserves(a, c, r1 + r2)
  {
    assert multiset(r1 + r2) == multiset(r1) + multiset(r2);
  }

  /** Over any run, the callbacks run plus those still waiting are exactly those waiting
      at the start, those already run, and those registered on the way: none runs twice
      and none is dropped. */
  lemma {:induction false} RunConservesCallbacks(w: World, es: seq<Event>, stringify: Json -> string)
    ensures Conserves(w, Run(w, es, stringify), Registered(es))
    decreases |es|
  {
    if es != [] {
      var w' := Step(w, es[0], stringify);
      var last := Run(w', es[1..], stringify);
      assert Run(w, es, stringify) == last;
      StepConservesCallbacks(w, es[0], stringify);
      RunConservesCallbacks(w', es[1..], stringify);
      ConservesChain(w, w', last, Registered([es[0]]), Registered(es[1..]));
      RegisteredCons(es);
    }
  }

  /** The same under the corrected timer. */
  lemma {:induction false} RunCorrectedConservesCallbacks(w: World, es: seq<Event>, stringify: Json -> string)
    ensures Conserves(w, RunCorrected(w, es, stringify), Registered(es))
    decreases |es|
  {
    if es != [] {
      var w' := StepCorrected(w, es[0], stringify);
      var last := RunCorrected(w', es[1..], stringify);
      assert RunCorrected(w, es, stringify) == last;
      StepConservesCallbacks(w, es[0], stringify);
      RunCorrectedConservesCallbacks(w', es[1..], stringify);
      ConservesChain(w, w', last, Registered([es[0]]), Registered(es[1..]));
      RegisteredCons(es);
    }
  }

  /** A store just constructed over a directory with none of its files: it holds the
      configured default object, and nothing was read. */
  function Fresh(c: Config): World {
    World(Store(c, c.defaultObject, false, false, "", []), map[], NoIo, [], [])
  }

  /** new FileStore over a directory with none of its files gives the fresh store of its
      configuration, for every codec. */
  lemma OpenEmptyIsFresh(o: Options, codec: Codec)
    requires o.filename != ""
    ensures Configure(o).Some? && Open(o, map[], codec) == Wrappers.Some(Fresh(Configure(o).value))
  {
    var c := Configure(o).value;
    assert Loading.NoneUsable(map[], codec, 0, c.maxBackups + 1);
    assert Loading.NonePresent(map[], 0, c.maxBackups + 1);
  }

  /** The document the scenario's set produces. */
  function ScenarioDoc(c: Config): Json {
    Put(c.defaultObject, "foo", JNumber(1.0))
  }

  /** set("foo", 1); the queued save runs; the write finishes; onFlush(7) during the
      cooldown; the timer fires. */
  function CooldownScenario(): seq<Event> {
    [SetCalled("foo", JNumber(1.0)), ImmediateRuns, WriteFinishes({}), OnFlushCalled(7), TimerExpires]
  }

  /** As written, the callback registered during the cooldown is still waiting once the
      timer has fired, although nothing is written or pending and no job is queued: the
      store is not Settled. With the corrected timer it has run and the store is Settled. */
  lemma CooldownCallbackStranded(c: Config, stringify: Json -> string)
    requires !c.readOnly && stringify(ScenarioDoc(c)) != ""
    ensures var r := Run(Fresh(c), CooldownScenario(), stringify);
      && Inv(r) && !r.store.writing && !r.store.needsWrite && r.immediates == []
      && r.store.onFlush == [7] && r.fired == [] && !Settled(r)
    ensures var r := RunCorrected(Fresh(c), CooldownScenario(), stringify);
      r.store.onFlush == [] && r.fired == [7] && Settled(r)
  {
    var doc := ScenarioDoc(c);
    var text := stringify(doc);
    var w2 := World(Store(c, doc, true, false, text, []), map[], WriteInFlight(text), [], []);
    var w4 := World(Store(c, doc, true, false, text, [7]), WriteCycle(map[], text, c.maxBackups, {}), CooldownTimer, [], []);
    CooldownSave(c, stringify);
    CooldownCallbackRegistered(c, stringify);
    RunFive(Fresh(c), SetCalled("foo", JNumber(1.0)), ImmediateRuns, WriteFinishes({}), OnFlushCalled(7), TimerExpires, stringify);
    var w5 := w4.(store := w4.store.(writing := false), io := NoIo);
    assert Step(w4, TimerExpires, stringify) == w5;
    var c5 := w5.(store := w5.store.(onFlush := []), fired := [7]);
    assert StepCorrected(w4, TimerExpires, stringify) == c5;
  }

  /** The finding for every store in the cooldown of a write with nothing pending: as
      written, a callback registered then is still waiting once the timer has fired on an
      otherwise idle store, so the store is not Settled; the corrected timer runs it, after
      those already waiting, and leaves the store Settled. */
  lemma CooldownCallbackWaits(w: World, cb: CallbackId, stringify: Json -> string)
    requires Inv(w) && w.io.CooldownTimer? && !w.store.needsWrite
    ensures var r := Run(w, [OnFlushCalled(cb), TimerExpires], stringify);
      && Inv(r) && r.io == NoIo && !r.store.writing && !r.store.needsWrite && r.disk == w.disk
      && r.store.onFlush == w.store.onFlush + [cb] && r.fired == w.fired && !Settled(r)
    ensures var r := RunCorrected(w, [OnFlushCalled(cb), TimerExpires], stringify);
      && r.io == NoIo && r.disk == w.disk
      && r.store.onFlush == [] && r.fired == w.fired + w.store.onFlush + [cb] && Settled(r)
  {
    var w1 := w.(store := w.store.(onFlush := w.store.onFlush + [cb]));
    assert Step(w, OnFlushCalled(cb), stringify) == w1;
    assert StepCorrected(w, OnFlushCalled(cb), stringify) == w1;
    RunTwo(w, OnFlushCalled(cb), TimerExpires, stringify);
    RunCorrectedTwo(w, OnFlushCalled(cb), TimerExpires, stringify);
  }

  /** Two events in a row, with the corrected timer. */
  lemma RunCorrectedTwo(w: World, e1: Event, e2: Event, stringify: Json -> string)
    ensures RunCorrected(w, [e1, e2], stringify) == StepCorrected(StepCorrected(w, e1, stringify), e2, stringify)
  {
    var w1 := StepCorrected(w, e1, stringify);
    var w2 := StepCorrected(w1, e2, stringify);
    assert [e1, e2][0] == e1 && [e1, e2][1..] == [e2];
    assert [e2][0] == e2 && [e2][1..] == [];
    assert RunCorrected(w2, [], stringify) == w2;
    assert RunCorrected(w1, [e2], stringify) == RunCorrected(w2, [], stringify);
    assert RunCorrected(w, [e1, e2], stringify) == RunCorrected(w1, [e2], stringify);
  }

  /** The scenario's set queues a save, which starts writing the new text. */
  lemma CooldownSave(c: Config, stringify: Json -> string)
    requires !c.readOnly && stringify(ScenarioDoc(c)) != ""
    ensures var doc := ScenarioDoc(c);
      Step(Step(Fresh(c), SetCalled("foo", JNumber(1.0)), stringify), ImmediateRuns, stringify)
        == World(Store(c, doc, true, false, stringify(doc), []), map[], WriteInFlight(stringify(doc)), [], [])
  {
    var doc := ScenarioDoc(c);
    var w1 := World(Store(c, doc, false, true, "", []), map[], NoIo, [SaveTask], []);
    assert Step(Fresh(c), SetCalled("foo", JNumber(1.0)), stringify) == w1;
    assert Step(w1, ImmediateRuns, stringify) == Save(w1.(immediates := []), stringify);
  }

  /** The write finishes and the callback is registered during the cooldown. */
  lemma CooldownCallbackRegistered(c: Config, stringify: Json -> string)
    ensures var doc := ScenarioDoc(c);
      var text := stringify(doc);
      var w2 := World(Store(c, doc, true, false, text, []), map[], WriteInFlight(text), [], []);
      Step(Step(w2, WriteFinishes({}), stringify), OnFlushCalled(7), stringify)
        == World(Store(c, doc, true, false, text, [7]), WriteCycle(map[], text, c.maxBackups, {}), CooldownTimer, [], [])
  {
    var doc := ScenarioDoc(c);
    var text := stringify(doc);
    var w2 := World(Store(c, doc, true, false, text, []), map[], WriteInFlight(text), [], []);
    var w3 := World(Store(c, doc, true, false, text, []), WriteCycle(map[], text, c.maxBackups, {}), CooldownTimer, [], []);
    assert Step(w2, WriteFinishes({}), stringify) == w3;
  }

  /** Running one sequence of events after another. */
  lemma {:induction false} RunAppend(w: World, a: seq<Event>, b: seq<Event>, stringify: Json -> string)
    ensures Run(w, a + b, stringify) == Run(Run(w, a, stringify), b, stringify)
    ensures RunCorrected(w, a + b, stringify) == RunCorrected(RunCorrected(w, a, stringify), b, stringify)
    decreases |a|
  {
    if a == [] {
      assert a + b == b;
    } else {
      assert (a + b)[0] == a[0] && (a + b)[1..] == a[1..] + b;
      RunAppend(Step(w, a[0], stringify), a[1..], b, stringify);
      RunAppend(StepCorrected(w, a[0], stringify), a[1..], b, stringify);
    }
  }

  /** Without a timer event the two machines run alike. */
  lemma {:induction false} RunCorrectedWithoutTimer(w: World, es: seq<Event>, stringify: Json -> string)
    requires forall i | 0 <= i < |es| :: !es[i].TimerExpires?
    ensures RunCorrected(w, es, stringify) == Run(w, es, stringify)
    decreases |es|
  {
    if es != [] {
      assert StepCorrected(w, es[0], stringify) == Step(w, es[0], stringify);
      RunCorrectedWithoutTimer(Step(w, es[0], stringify), es[1..], stringify);
    }
  }

  /** Five events run one at a time; the first four are not the timer, so only the last
      can tell the two machines apart. */
  lemma RunFive(w: World, e0: Event, e1: Event, e2: Event, e3: Event, e4: Event, stringify: Json -> string)
    requires !e0.TimerExpires? && !e1.TimerExpires? && !e2.TimerExpires? && !e3.TimerExpires?
    ensures var w4 := Step(Step(Step(Step(w, e0, stringify), e1, stringify), e2, stringify), e3, stringify);
      && Run(w, [e0, e1, e2, e3, e4], stringify) == Step(w4, e4, stringify)
      && RunCorrected(w, [e0, e1, e2, e3, e4], stringify) == StepCorrected(w4, e4, stringify)
  {
    var w2 := Step(Step(w, e0, stringify), e1, stringify);
    var w4 := Step(Step(w2, e2, stringify), e3, stringify);
    assert [e0, e1, e2, e3, e4] == [e0, e1] + [e2, e3] + [e4];
    RunAppend(w, [e0, e1] + [e2, e3], [e4], stringify);
    RunAppend(w, [e0, e1], [e2, e3], stringify);
    RunTwo(w, e0, e1, stringify);
    RunTwo(w2, e2, e3, stringify);
    RunCorrectedWithoutTimer(w, [e0, e1] + [e2, e3], stringify);
    assert Run(w4, [e4], stringify) == Step(w4, e4, stringify) by {
      assert [e4][1..] == [];
    }
    assert RunCorrected(w4, [e4], stringify) == StepCorrected(w4, e4, stringify) by {
      assert [e4][1..] == [];
    }
  }

  /** As written, once a store with nothing written, pending or queued to save has
      callbacks waiting, they stay waiting through every event except a set or a direct
      save: only a later save runs them. */
  lemma {:induction false} StrandedUntilNextSave(w: World, es: seq<Event>, stringify: Json -> string)
    requires Inv(w) && w.io.NoIo? && !w.store.needsWrite && SaveTask !in w.immediates
    requires forall i | 0 <= i < |es| :: !es[i].SetCalled? && !es[i].SaveCalled?
    ensures Run(w, es, stringify).store.onFlush == w.store.onFlush
    decreases |es|
  {
    if es != [] {
      var w' := Step(w, es[0], stringify);
      StepKeepsInv(w, es[0], stringify);
      if es[0].ImmediateRuns? && w.immediates != [] {
        assert w.immediates == [w.immediates[0]] + w'.immediates;
      }
      StrandedUntilNextSave(w', es[1..], stringify);
    }
  }
}
