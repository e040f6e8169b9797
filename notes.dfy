/**
 * The `Note` entity and the save scheduling of `NotesProvider` (notes.js).
 *
 * The browser's callbacks on a save transaction become the methods
 * `CompleteSave` and `FailSave`, called by the environment. Every method that
 * changes a note's save state is proved to take the step the pure state
 * machine of module SaveMachine takes.
 */
module Notes {
  import opened Wrappers
  import opened Memento
  import opened SaveMachine

  /** The callbacks registered for `event`, or none. */
  function Listeners(subscribers: map<string, seq<object>>, event: string): (r: seq<object>)
    ensures event !in subscribers ==> r == []
  {
    if event in subscribers then subscribers[event] else []
  }

  class Note {
    const provider: NotesProvider
    var memento: Record
    var dirty: bool
    var saving: bool
    /** The record handed to `store.put` by this note's transaction in flight, if any. */
    var inFlight: Option<Record>
    /** Callbacks by event name; a callback is the object whose handler runs. */
    var subscribers: map<string, seq<object>>

    ghost predicate Valid()
      reads this
    {
      FlagsOk(dirty, saving, inFlight) && SnapshotOk(memento, dirty, saving, inFlight)
    }

    /**
     * `new Note(provider, init)`: `freshId` is what `UUID()` returns and
     * `now`/`stamp` stand for `new Date()`. Both flags start false.
     */
    constructor(provider: NotesProvider, init: Option<InitData>, freshId: string, now: Time, stamp: string)
      ensures this.provider == provider && memento == Hydrate(init, freshId, now, stamp)
      ensures !dirty && !saving && inFlight.None? && subscribers == map[]
      ensures Valid()
    {
      this.provider := provider;
      memento := Hydrate(init, freshId, now, stamp);
      dirty, saving, inFlight := false, false, None;
      subscribers := map[];
    }

    /** `subscribe`: append `callback` to the list kept for `event`. */
    method Subscribe(event: string, callback: object)
      modifies this`subscribers
      ensures subscribers == old(subscribers)[event := Listeners(old(subscribers), event) + [callback]]
    {
      if event !in subscribers {
        subscribers := subscribers[event := []];
      }
      subscribers := subscribers[event := subscribers[event] + [callback]];
    }

    /**
     * The `title` setter: the callbacks in `invoked` are the `changed`
     * subscribers that `updated` ran, in order (none when the value is unchanged).
     */
    method SetTitle(v: string, now: Time) returns (invoked: seq<object>)
      requires Valid()
      modifies this`memento, this`dirty, this`saving, this`inFlight, provider`writes
      ensures Valid()
      ensures provider.View(this) == Edit(old(provider.View(this)), Change(Title, v, now))
      ensures invoked == if old(memento.title) == v then [] else Listeners(subscribers, "changed")
    {
      invoked := [];
      if memento.title != v {
        memento := memento.(title := v, modified := now);
        invoked := provider.Updated(this);
      }
    }

    /** The `text` setter, as `SetTitle` for the text field. */
    method SetText(v: string, now: Time) returns (invoked: seq<object>)
      requires Valid()
      modifies this`memento, this`dirty, this`saving, this`inFlight, provider`writes
      ensures Valid()
      ensures provider.View(this) == Edit(old(provider.View(this)), Change(Text, v, now))
      ensures invoked == if old(memento.text) == v then [] else Listeners(subscribers, "changed")
    {
      invoked := [];
      if memento.text != v {
        memento := memento.(text := v, modified := now);
        invoked := provider.Updated(this);
      }
    }
  }

  class NotesProvider {
    /** The "notes" object store, keyed by id. */
    var store: map<Id, Record>
    /** Every record handed to `store.put`, in order. */
    var writes: seq<Record>
    /** How many "Failed to save note." alerts were raised. */
    var alerts: nat

    /**
     * A provider over the database as earlier sessions left it: `db` is the
     * "notes" store's contents, each record under its own id (the store's key
     * path).
     */
    constructor(db: map<Id, Record>)
      requires forall k | k in db :: db[k].id == k
      ensures store == db && writes == [] && alerts == 0
    {
      store, writes, alerts := db, [], 0;
    }

    /** What one note's save cycle sees of the note and of this provider. */
    ghost function View(note: Note): Sync
      reads this, note
    {
      Sync(note.memento, note.dirty, note.saving, note.inFlight, store, writes, alerts)
    }

    /**
     * `saveNote`. Every caller enters it with no write in flight for the note,
     * so at most one write per note is ever in flight.
     */
    method SaveNote(note: Note)
      requires !note.saving && note.inFlight.None?
      modifies this`writes, note`dirty, note`saving, note`inFlight
      ensures note.Valid()
      ensures View(note) == StartSave(old(View(note)))
    {
      note.saving := true;
      note.dirty := false;
      note.inFlight := Some(note.memento);
      writes := writes + [note.memento];
    }

    /**
     * `updated`: collect every `changed` subscriber, in registration order,
     * then start a write if none is in flight, or else mark the note dirty.
     * The loop stands in for the source's index loop over the subscribers;
     * their calls happen in `ViewModel.Dispatch`, which runs the collected
     * callbacks.
     */
    method Updated(note: Note) returns (invoked: seq<object>)
      requires FlagsOk(note.dirty, note.saving, note.inFlight)
      modifies this`writes, note`dirty, note`saving, note`inFlight
      ensures note.Valid()
      ensures invoked == Listeners(note.subscribers, "changed")
      ensures View(note) == SaveMachine.Updated(old(View(note)))
    {
      invoked := [];
      if "changed" in note.subscribers {
        var callbacks := note.subscribers["changed"];
        var i := 0;
        while i < |callbacks|
          invariant 0 <= i <= |callbacks|
          invariant invoked == callbacks[..i]
        {
          invoked := invoked + [callbacks[i]];
          i := i + 1;
        }
      }
      if !note.dirty && !note.saving {
        note.dirty := true;
        SaveNote(note);
      } else if !note.dirty && note.saving {
        note.dirty := true;
      }
    }

    /** The save transaction's "complete" event: commit, clear `saving`, save again if dirty. */
    method CompleteSave(note: Note)
      requires note.Valid() && note.inFlight.Some?
      modifies this`store, this`writes, note`dirty, note`saving, note`inFlight
      ensures note.Valid()
      ensures View(note) == Complete(old(View(note)))
    {
      var snapshot := note.inFlight.value;
      store := store[snapshot.id := snapshot];
      note.inFlight := None;
      note.saving := false;
      if note.dirty {
        SaveNote(note);
      }
    }

    /** The save transaction's "error" event: one alert, and `saving` is never cleared. */
    method FailSave(note: Note)
      requires note.Valid() && note.inFlight.Some?
      modifies this`alerts, note`inFlight
      ensures note.Valid()
      ensures View(note) == Fail(old(View(note)))
    {
      alerts := alerts + 1;
      note.inFlight := None;
    }
  }
}
