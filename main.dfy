/**
 * The view model of main.js: list items that mirror a note's title and
 * modification time, the list kept newest first, the list/note view switch,
 * and the two application events that reach the core: loading the stored
 * notes at start-up and the "add new" click.
 *
 * `NotesProvider.prototype.init` is defined here, as `App.Init`, because it
 * feeds `viewModel.addNote` and Dafny modules cannot import each other in a cycle.
 */
module Application {
  import opened Wrappers
  import opened Memento
  import opened SaveMachine
  import opened Notes
  import Ordering

  const ListView: string := "list"
  const NoteView: string := "note"

  /** A list entry; its knockout observables `title` and `modified` are plain fields. */
  class NoteListItem {
    const note: Note
    var title: string
    var modified: Time

    /** `new NoteListItem(note, viewModel)`: mirror the note and subscribe to its `changed` event. */
    constructor(note: Note)
      modifies note`subscribers
      ensures this.note == note && title == note.memento.title && modified == note.memento.modified
      ensures note.subscribers == old(note.subscribers)["changed" := Listeners(old(note.subscribers), "changed") + [this]]
    {
      this.note := note;
      title := note.memento.title;
      modified := note.memento.modified;
      new;
      note.Subscribe("changed", this);
    }
  }

  /** The modification time of each item's note: the key `NoteListItem.prototype.compare` reads. */
  function Stamps(s: seq<NoteListItem>): (key: map<NoteListItem, Time>)
    reads set i | i in s :: i.note`memento
    ensures Ordering.Keyed(s, key)
    ensures forall i | i in s :: key[i] == i.note.memento.modified
  {
    map i | i in s :: i.note.memento.modified
  }

  /**
   * Ordered by `compare`: no item's note is older than that of an item after
   * it. This is Ordering.SortedBy over Stamps, stated on the times directly
   * so that the view model's frame reasoning never unfolds the comparator;
   * SortNewestFirst connects the two.
   */
  ghost predicate NewestFirst(s: seq<NoteListItem>)
    reads set i | i in s :: i.note`memento
  {
    forall i, j | 0 <= i < j < |s| :: s[i].note.memento.modified >= s[j].note.memento.modified
  }

  /** Sorting the list by the items' current times puts it newest first and keeps its items. */
  lemma SortNewestFirst(s: seq<NoteListItem>)
    ensures multiset(Ordering.Sort(s, Stamps(s))) == multiset(s)
    ensures NewestFirst(Ordering.Sort(s, Stamps(s)))
  {
  }

  /** The item shows its note's current title and time. */
  ghost predicate Mirrored(i: NoteListItem)
    reads i, i.note`memento
  {
    i.title == i.note.memento.title && i.modified == i.note.memento.modified
  }

  /** Every item shows its note's current title and time. */
  ghost predicate Mirrors(s: seq<NoteListItem>)
    reads s, set i | i in s :: i.note`memento
  {
    forall i | i in s :: Mirrored(i)
  }

  /** Every item is subscribed to its note's `changed` event. */
  ghost predicate Subscribed(s: seq<NoteListItem>)
    reads set i | i in s :: i.note`subscribers
  {
    forall i | i in s :: i in Listeners(i.note.subscribers, "changed")
  }

  /** A sequence holding no more than the items of `a` holds only items of `a`. */
  lemma SameItems(a: seq<NoteListItem>, b: seq<NoteListItem>)
    requires multiset(b) <= multiset(a)
    ensures forall i | i in b :: i in a
  {
    forall i | i in b ensures i in a {
      assert i in multiset(b);
    }
  }

  /** Both list invariants carry over to any sequence of the same items. */
  lemma InvariantsOfSameItems(a: seq<NoteListItem>, b: seq<NoteListItem>)
    requires Mirrors(a) && Subscribed(a)
    requires multiset(b) <= multiset(a)
    ensures Mirrors(b) && Subscribed(b)
  {
    SameItems(a, b);
  }

  /** The callback is a list item, whose `changed` handler re-sorts the list. */
  predicate IsItem(callback: object)
  {
    callback is NoteListItem
  }

  function AsItem(callback: object): NoteListItem
    requires IsItem(callback)
  {
    callback as NoteListItem
  }

  /** The list items among `callbacks`. */
  function ItemsOf(callbacks: seq<object>): set<NoteListItem>
  {
    set o | o in callbacks && IsItem(o) :: AsItem(o)
  }

  /** Some callback in `callbacks` from index `k` on is a list item. */
  predicate ItemFrom(callbacks: seq<object>, k: nat)
  {
    exists m | k <= m < |callbacks| :: IsItem(callbacks[m])
  }

  /** With no list item among `callbacks`, no item is one of them. */
  lemma NotAmong(i: NoteListItem, callbacks: seq<object>)
    requires !ItemFrom(callbacks, 0)
    ensures i !in callbacks
  {
  }

  class ViewModel {
    var notes: seq<NoteListItem>
    var currentNote: Note?
    var currentView: string

    /**
     * The view is "list" or "note"; the list is newest first; every item
     * mirrors its note and is subscribed to the note's `changed` event.
     */
    ghost predicate Valid()
      reads this`notes, this`currentView, notes, set i | i in notes :: i.note`memento, set i | i in notes :: i.note`subscribers
    {
      (currentView == ListView || currentView == NoteView) && NewestFirst(notes) && Mirrors(notes) && Subscribed(notes)
    }

    constructor()
      ensures Valid() && notes == [] && currentNote == null && currentView == ListView
    {
      notes, currentNote, currentView := [], null, ListView;
    }

    /** `notes.sort(NoteListItem.prototype.compare)`. */
    method SortNotes()
      modifies this`notes
      ensures multiset(notes) == multiset(old(notes)) && NewestFirst(notes)
    {
      SortNewestFirst(notes);
      notes := Ordering.Sort(notes, Stamps(notes));
    }

    /** `addNote`: push a new item for `note`, then sort. */
    method AddNote(note: Note) returns (item: NoteListItem)
      requires Valid()
      modifies this`notes, note`subscribers
      ensures Valid()
      ensures fresh(item) && item.note == note
      ensures multiset(notes) == multiset(old(notes)) + multiset{item}
      ensures note.subscribers == old(note.subscribers)["changed" := Listeners(old(note.subscribers), "changed") + [item]]
    {
      item := NewItem(note);
      notes := notes + [item];
      ghost var pushed := notes;
      SortNotes();
      InvariantsOfSameItems(pushed, notes);
    }

    /** `new NoteListItem(note, this)`, which leaves the listed items mirrored and subscribed. */
    method NewItem(note: Note) returns (item: NoteListItem)
      requires Mirrors(notes) && Subscribed(notes)
      modifies note`subscribers
      ensures fresh(item) && item.note == note
      ensures Mirrors(notes + [item]) && Subscribed(notes + [item])
      ensures note.subscribers == old(note.subscribers)["changed" := Listeners(old(note.subscribers), "changed") + [item]]
    {
      item := new NoteListItem(note);
      forall i | i in notes ensures Mirrored(i) && i in Listeners(i.note.subscribers, "changed") {
        assert old(Mirrored(i) && i in Listeners(i.note.subscribers, "changed"));
      }
    }

    /** The `changed` handler of `item`: mirror the note's title and time, then sort. */
    method Changed(item: NoteListItem)
      modifies item`title, item`modified, this`notes
      ensures Mirrored(item)
      ensures multiset(notes) == multiset(old(notes)) && NewestFirst(notes)
    {
      item.title := item.note.memento.title;
      item.modified := item.note.memento.modified;
      SortNotes();
    }

    /**
     * Run, in order, the handlers of the callbacks `updated` invoked. Every
     * listed item that no longer mirrors its note is among them, and unless
     * one of them is a list item (whose handler sorts) the list is already
     * newest first; afterwards the list mirrors the notes and is newest first.
     */
    method Dispatch(invoked: seq<object>)
      requires forall i | i in notes :: Mirrored(i) || i in invoked
      requires ItemFrom(invoked, 0) || NewestFirst(notes)
      modifies this`notes, ItemsOf(invoked)`title, ItemsOf(invoked)`modified
      ensures multiset(notes) == multiset(old(notes))
      ensures Mirrors(notes) && NewestFirst(notes)
    {
      ghost var items := notes;
      var k := 0;
      while k < |invoked|
        invariant 0 <= k <= |invoked|
        invariant multiset(notes) == multiset(items)
        invariant forall i | i in items :: Mirrored(i) || i in invoked[k..]
        invariant ItemFrom(invoked, k) || NewestFirst(notes)
      {
        if IsItem(invoked[k]) {
          assert AsItem(invoked[k]) in ItemsOf(invoked);
          Changed(AsItem(invoked[k]));
        }
        assert invoked[k..] == [invoked[k]] + invoked[k + 1..];
        k := k + 1;
      }
      SameItems(items, notes);
    }

    /** `updateTitle`: the edited title goes through the note's setter. */
    method UpdateTitle(note: Note, value: string, now: Time)
      requires Valid() && note.Valid()
      modifies note`memento, note`dirty, note`saving, note`inFlight, note.provider`writes, this`notes,
        ItemsOf(Listeners(note.subscribers, "changed"))`title, ItemsOf(Listeners(note.subscribers, "changed"))`modified
      ensures Valid() && note.Valid()
      ensures note.provider.View(note) == Edit(old(note.provider.View(note)), Change(Title, value, now))
      ensures multiset(notes) == multiset(old(notes))
    {
      EditField(note, Change(Title, value, now));
    }

    /** `updateText`: the edited text goes through the note's setter. */
    method UpdateText(note: Note, value: string, now: Time)
      requires Valid() && note.Valid()
      modifies note`memento, note`dirty, note`saving, note`inFlight, note.provider`writes, this`notes,
        ItemsOf(Listeners(note.subscribers, "changed"))`title, ItemsOf(Listeners(note.subscribers, "changed"))`modified
      ensures Valid() && note.Valid()
      ensures note.provider.View(note) == Edit(old(note.provider.View(note)), Change(Text, value, now))
      ensures multiset(notes) == multiset(old(notes))
    {
      EditField(note, Change(Text, value, now));
    }

    /**
     * Assign through the setter of `c.field`, then run the handlers the
     * setter's `updated` call invoked. Afterwards the list is again newest
     * first and every item mirrors its note.
     */
    method EditField(note: Note, c: Change)
      requires Valid() && note.Valid()
      modifies note`memento, note`dirty, note`saving, note`inFlight, note.provider`writes, this`notes,
        ItemsOf(Listeners(note.subscribers, "changed"))`title, ItemsOf(Listeners(note.subscribers, "changed"))`modified
      ensures Valid() && note.Valid()
      ensures note.provider.View(note) == Edit(old(note.provider.View(note)), c)
      ensures multiset(notes) == multiset(old(notes))
    {
      var invoked := SetField(note, c);
      ghost var before := notes;
      Dispatch(invoked);
      SameItems(before, notes);
      forall i | i in notes ensures i in Listeners(i.note.subscribers, "changed") {
        assert i in before;
      }
    }

    /**
     * The setter of `c.field`. An item left showing an old title or time is
     * subscribed to `note`, so its handler is among those `updated` invoked;
     * when none of them is a list item the list is still newest first.
     */
    method SetField(note: Note, c: Change) returns (invoked: seq<object>)
      requires Valid() && note.Valid()
      modifies note`memento, note`dirty, note`saving, note`inFlight, note.provider`writes
      ensures note.Valid()
      ensures note.provider.View(note) == Edit(old(note.provider.View(note)), c)
      ensures invoked == [] || invoked == Listeners(note.subscribers, "changed")
      ensures Subscribed(notes)
      ensures forall i | i in notes :: Mirrored(i) || i in invoked
      ensures ItemFrom(invoked, 0) || NewestFirst(notes)
    {
      ghost var changed := Get(note.memento, c.field) != c.value;
      if c.field == Title {
        invoked := note.SetTitle(c.value, c.now);
      } else {
        invoked := note.SetText(c.value, c.now);
      }
      forall i | i in notes ensures (Mirrored(i) && i.note.memento == old(i.note.memento)) || i in invoked {
        assert old(Mirrored(i));
        if i.note == note && changed {
          assert i in Listeners(note.subscribers, "changed");
        }
      }
      if !ItemFrom(invoked, 0) {
        forall i, j | 0 <= i < j < |notes|
          ensures notes[i].note.memento.modified >= notes[j].note.memento.modified
        {
          NotAmong(notes[i], invoked);
          NotAmong(notes[j], invoked);
          assert old(notes[i].note.memento.modified >= notes[j].note.memento.modified);
        }
      }
      forall i | i in notes ensures i in Listeners(i.note.subscribers, "changed") {
        assert old(i in Listeners(i.note.subscribers, "changed"));
      }
    }

    /** The click listener's view half: `addNote(note)`, then make `note` current and show it. */
    method Present(note: Note) returns (item: NoteListItem)
      requires Valid()
      modifies this`notes, this`currentNote, this`currentView, note`subscribers
      ensures Valid() && currentNote == note && currentView == NoteView
      ensures fresh(item) && item.note == note
      ensures multiset(notes) == multiset(old(notes)) + multiset{item}
      ensures note.subscribers == old(note.subscribers)["changed" := Listeners(old(note.subscribers), "changed") + [item]]
    {
      item := AddNote(note);
      currentNote := note;
      currentView := NoteView;
    }

    /** `openNote`: show the item's note. */
    method OpenNote(item: NoteListItem)
      requires Valid()
      modifies this`currentNote, this`currentView
      ensures Valid() && currentNote == item.note && currentView == NoteView
    {
      currentNote := item.note;
      currentView := NoteView;
    }

    /** `closeNote`: back to the list, with no current note. */
    method CloseNote()
      requires Valid()
      modifies this`currentNote, this`currentView
      ensures Valid() && currentNote == null && currentView == ListView
    {
      currentView := ListView;
      currentNote := null;
    }
  }

  /**
   * A step that changes neither the view model nor its items, and neither
   * the mementos nor the subscriptions of their notes, keeps it valid.
   */
  twostate lemma StillValid(vm: ViewModel)
    requires old(vm.Valid())
    requires unchanged(vm`notes, vm`currentView)
    requires forall i | i in vm.notes :: unchanged(i) && unchanged(i.note`memento, i.note`subscribers)
    ensures vm.Valid()
  {
  }

  /** How the cursor over the "modified" index ended: after its last record, or with an error or abort. */
  datatype CursorEnd = Exhausted | Failed

  class App {
    const version: int
    const provider: NotesProvider
    const vm: ViewModel
    /** `ready` ran: the "add new" button is enabled and its click listener attached. */
    var ready: bool
    /** How many "Error while initialization." alerts were raised. */
    var initAlerts: nat

    /**
     * `new App()`: database version 2, a provider and an empty view model on
     * the list view. `db` is what the "notes" store already holds.
     */
    constructor(db: map<Id, Record>)
      requires forall k | k in db :: db[k].id == k
      ensures version == 2 && fresh(provider) && fresh(vm)
      ensures provider.store == db && provider.writes == [] && provider.alerts == 0
      ensures vm.Valid() && vm.notes == [] && vm.currentNote == null && vm.currentView == ListView
      ensures !ready && initAlerts == 0
    {
      version := 2;
      provider := new NotesProvider(db);
      vm := new ViewModel();
      ready, initAlerts := false, 0;
    }

    /** Each item's note belongs to this app's provider, holds the matching record and has no save pending. */
    ghost predicate Loaded(items: seq<NoteListItem>, records: seq<Record>)
      reads set i | i in items :: i.note
    {
      |items| == |records| &&
      forall k | 0 <= k < |items| ::
        var n := items[k].note;
        n.provider == provider && n.memento == records[k] && !n.dirty && !n.saving && n.inFlight.None?
    }

    /**
     * `NotesProvider.prototype.init` with the callback `App.prototype.init`
     * gives it: the cursor delivers `records` in order, each becomes a note
     * added to the view model, and then the cursor is exhausted (the callback
     * runs `ready`) or fails (the callback raises an alert). The cursor
     * reads the provider's own store: every record it delivers is stored
     * under its id, and a cursor that runs to its end delivers each stored
     * record once. `freshId`, `now` and `stamp` are what `UUID()` and
     * `new Date()` return while each note is built; a stored record
     * overrides all of them.
     */
    method Init(records: seq<Record>, end: CursorEnd, freshId: string, now: Time, stamp: string)
        returns (ghost added: seq<NoteListItem>)
      requires vm.Valid()
      requires forall r | r in records :: r.id in provider.store && provider.store[r.id] == r
      requires end == Exhausted ==> (set r | r in records) == provider.store.Values && |records| == |provider.store|
      modifies this`ready, this`initAlerts, vm`notes
      ensures vm.Valid() && Loaded(added, records)
      ensures multiset(vm.notes) == multiset(old(vm.notes)) + multiset(added)
      ensures ready == (old(ready) || end == Exhausted)
      ensures initAlerts == old(initAlerts) + (if end == Failed then 1 else 0)
      ensures forall k | 0 <= k < |added| ::
        var m := added[k].note.memento; m.id in provider.store && provider.store[m.id] == m
      ensures end == Exhausted ==> (|added| == |provider.store| &&
        forall id | id in provider.store :: exists k | 0 <= k < |added| :: added[k].note.memento == provider.store[id])
    {
      added := LoadAll(records, freshId, now, stamp);
      label Listed:
      if end == Exhausted {
        ready := true;
      } else {
        initAlerts := initAlerts + 1;
      }
      StillValid@Listed(vm);
      LoadedFromStore(added, records, end);
    }

    /** The notes loaded from the cursor's records are the store's records, all of them when the cursor ran to its end. */
    lemma LoadedFromStore(added: seq<NoteListItem>, records: seq<Record>, end: CursorEnd)
      requires Loaded(added, records)
      requires forall r | r in records :: r.id in provider.store && provider.store[r.id] == r
      requires end == Exhausted ==> (set r | r in records) == provider.store.Values && |records| == |provider.store|
      ensures forall k | 0 <= k < |added| ::
        var m := added[k].note.memento; m.id in provider.store && provider.store[m.id] == m
      ensures end == Exhausted ==> (|added| == |provider.store| &&
        forall id | id in provider.store :: exists k | 0 <= k < |added| :: added[k].note.memento == provider.store[id])
    {
      if end == Exhausted {
        forall id | id in provider.store
          ensures exists k | 0 <= k < |added| :: added[k].note.memento == provider.store[id]
        {
          assert provider.store[id] in provider.store.Values;
          var j :| 0 <= j < |records| && records[j] == provider.store[id];
          assert added[j].note.memento == records[j];
        }
      }
    }

    /** The cursor's "success" events up to its end: every record becomes a listed note, in order. */
    method LoadAll(records: seq<Record>, freshId: string, now: Time, stamp: string) returns (ghost added: seq<NoteListItem>)
      requires vm.Valid()
      modifies vm`notes
      ensures vm.Valid() && Loaded(added, records)
      ensures multiset(vm.notes) == multiset(old(vm.notes)) + multiset(added)
    {
      added := [];
      var k := 0;
      while k < |records|
        invariant 0 <= k <= |records|
        invariant vm.Valid() && Loaded(added, records[..k])
        invariant multiset(vm.notes) == multiset(old(vm.notes)) + multiset(added)
      {
        var item := Load(records[k], freshId, now, stamp, added, records[..k]);
        assert records[..k + 1] == records[..k] + [records[k]];
        added := added + [item];
        k := k + 1;
      }
      assert records[..k] == records;
    }

    /** The cursor's "success" handler for one record: a note built from it is added to the view model. */
    method Load(record: Record, freshId: string, now: Time, stamp: string, ghost added: seq<NoteListItem>, ghost loaded: seq<Record>)
        returns (item: NoteListItem)
      requires vm.Valid() && Loaded(added, loaded)
      modifies vm`notes
      ensures vm.Valid() && Loaded(added + [item], loaded + [record])
      ensures fresh(item) && fresh(item.note) && item.note.subscribers == map["changed" := [item]]
      ensures multiset(vm.notes) == multiset(old(vm.notes)) + multiset{item}
    {
      HydrateStored(record, freshId, now, stamp);
      var note := new Note(provider, Some(AsInitData(record)), freshId, now, stamp);
      assert Listeners(note.subscribers, "changed") == [];
      item := vm.AddNote(note);
      assert [] + [item] == [item];
    }

    /**
     * The "add new" click listener `ready` attaches: a new note is listed,
     * made current and shown, and its first write starts at once.
     */
    method NewNoteClicked(freshId: string, now: Time, stamp: string) returns (note: Note, item: NoteListItem)
      requires ready && vm.Valid()
      modifies vm`notes, vm`currentNote, vm`currentView, provider`writes
      ensures vm.Valid() && note.Valid()
      ensures fresh(note) && note.provider == provider && note.memento == Hydrate(None, freshId, now, stamp)
      ensures vm.currentNote == note && vm.currentView == NoteView
      ensures fresh(item) && item.note == note && multiset(vm.notes) == multiset(old(vm.notes)) + multiset{item}
      ensures note.subscribers == map["changed" := [item]]
      ensures provider.View(note) ==
        StartSave(Sync(note.memento, false, false, None, old(provider.store), old(provider.writes), old(provider.alerts)))
    {
      note := new Note(provider, None, freshId, now, stamp);
      assert Listeners(note.subscribers, "changed") == [];
      item := vm.Present(note);
      assert [] + [item] == [item];
      label Shown:
      provider.SaveNote(note);
      StillValid@Shown(vm);
    }
  }
}
