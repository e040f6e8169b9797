# Notes: a Dafny model of the save scheduling and list view

The notes app keeps each note in IndexedDB. Its editing model is a note object whose
`title` and `text` setters report every real change to a `NotesProvider`. The
provider coalesces the resulting writes. At most one write per note is in flight.
A change that arrives meanwhile only marks the note dirty, and when the write
completes, one follow-up write carries the latest state. A knockout view model
lists the notes, newest first. Each list item mirrors its note's title and
modification time, and the list switches between a list view and a note view.

The project models both core files in the form they are written in:

- `memento.dfy` holds the persisted record (the "memento"), how the `Note`
  constructor builds it from optional initial data, `Note.prototype.format`, and
  the schema set-up of `initStorage`, reduced to store and index names.
- `save_machine.dfy` is the save-coalescing state machine as pure functions on
  one note's view of the world: its record, the `dirty` and `saving` flags,
  the snapshot in flight, the store, the log of writes started and the alert
  count. It also holds the lemmas about whole runs: coalescing, eventual
  consistency, and the stranded state after a failed write.
- `notes.dfy` has the classes `Note` and `NotesProvider`. Their methods change the
  fields in place, and each is proved to take exactly the step of the state
  machine. The browser's transaction callbacks are the methods `CompleteSave`
  and `FailSave`.
- `ordering.dfy` has the comparator `NoteListItem.prototype.compare`, and an
  insertion sort by it that stands in for the engine's `Array.prototype.sort`.
- `main.dfy` has the classes `NoteListItem`, `ViewModel` and `App`. `App` covers
  `NotesProvider.prototype.init` as a loop over the records the cursor
  delivers, and the "add new" click handler. `init` lives here because it
  calls into the view model, and modules cannot import each other in a cycle.

`UUID()` and `new Date()` become parameters: a fresh id, a numeric time `now`
and its text `stamp`. `alert` becomes a counter. Each `changed` callback is an
object: `updated` collects the callbacks, in order, and the view model
runs the handler of every one that is a list item.

`addNote` sorts after every push (main.js:46-49), and every cursor record
goes through it, so after `init` the list is newest first whatever order the
cursor delivers.

## Model

| member | source | states |
|---|---|---|
| Memento.Defaults | notes.js:8-15 | The defaults of a new note: no id, the title "Note " followed by the date text, the text "New note.", `created` and `modified` both the current time, format "text". |
| Memento.Hydrate | notes.js:2-26 | Without initial data the record gets the generated id and the defaults. With initial data, every supplied key overwrites its default, a supplied id whatever its truthiness included, and an absent id is replaced by the generated one. |
| Memento.HydrateStored | notes.js:17-23 | A note built from a stored record holds exactly that record, whatever the generated id. |
| Memento.Format | notes.js:119-123 | The data is returned unchanged exactly when the input and output formats agree; otherwise the result is undefined. |
| Memento.InitStorage | notes.js:137-152 | The "notes" store exists afterwards with its "modified" and "created" indexes and no index besides those and the ones it already had. Existing indexes and other stores are kept. |
| Memento.InitStorageIdempotent | notes.js:137-152 | Running the schema set-up a second time changes nothing. |
| SaveMachine.Put | notes.js:72-77 | A changing assignment sets the field and `modified` and leaves the other field, `id`, `created` and `format` alone. |
| SaveMachine.ApplyKeepsIdentity | notes.js:42-56 | No run of title/text assignments changes `id`, `created` or `format`. |
| SaveMachine.StartSave | notes.js:218-245 | `saveNote` leaves the note saving and clean, with one write started that carries the current memento and is the one in flight. Memento, store and alerts are untouched, and the flag invariant holds whatever the state before. |
| SaveMachine.Updated | notes.js:259-265 | The flag logic of `updated` leaves the note dirty or saving. It starts a write exactly when the note was neither dirty nor saving, at most one, carrying the current memento. Memento, store and alerts are untouched. |
| SaveMachine.Edit | notes.js:72-92 | A setter leaves the state exactly as it was if and only if the assigned value equals the current one. The memento becomes the assignment applied, and store and alerts are untouched. |
| SaveMachine.Complete | notes.js:228-235 | The "complete" event commits the write in flight to the store under its id. The note is then saving again if and only if it was dirty, and clean either way. |
| SaveMachine.Fail | notes.js:236-239 | The "error" event raises one alert and leaves nothing in flight. A saving note stays saving with no write left to clear the flag. Memento, flags, store and writes are untouched. |
| SaveMachine.UpdatedStartsAtMostOneWrite | notes.js:259-265 | `updated` starts a write exactly when none is in flight; otherwise it only marks the note dirty. Both outcomes restore the flag invariant. |
| SaveMachine.EditStep | notes.js:72-92 | Assigning a field its current value is a complete no-op. Any other value changes only that field and `modified`, leaves the note saving, and keeps the invariant. |
| SaveMachine.CompleteStep | notes.js:228-235 | On completion, a clean note becomes idle and the store's record for its id equals the note. A dirty note starts exactly one more write carrying its current state. |
| SaveMachine.FailStep | notes.js:236-239 | A failed write raises one alert. `saving` stays set, nothing is left in flight, and store and writes are unchanged. |
| SaveMachine.RunInvariant | notes.js:259-265 | `dirty ⇒ saving` and the snapshot invariant hold after any run of assignments. The record is the assignments applied in order, and any change leaves the note saving. |
| SaveMachine.RunWhileSaving | notes.js:259-265 | While a write is in flight, assignments never start another write. They mark the note dirty exactly when one of them changes a value. |
| SaveMachine.RunIneffective | notes.js:72-92 | A burst of assignments with no change leaves the state exactly as it was. |
| SaveMachine.Coalesce | notes.js:228-265 | With a write in flight for a clean note, any burst containing a change yields exactly one follow-up write on completion, and it carries the final state. When that write completes, the store holds the final state. |
| SaveMachine.DrainSettles | notes.js:228-235 | Letting every write complete successfully leaves a saving, healthy note idle, with the store's record equal to the note. |
| SaveMachine.EventuallyConsistent | notes.js:218-266 | For a burst of edits with no completion in between, to a note that is saving or gets changed: once all writes succeed the note is idle and the stored record equals its final state. |
| SaveMachine.HappenKeeps | notes.js:228-265 | One assignment or completion keeps the flag invariant, health (saving implies a write in flight) and settledness (a note that is not saving is what the store holds), and applies the assignment to the memento. |
| SaveMachine.StepsKeep | notes.js:228-265 | Any schedule of assignments interleaved with completions keeps the invariant, health and settledness, and the memento is the schedule's assignments applied in order. |
| SaveMachine.InterleavedConsistent | notes.js:218-266 | From a settled note (every saving note is), after any interleaving of assignments and completions, once every owed write succeeds the note is idle and the store's record for its id equals its final state. |
| SaveMachine.StrandedAfterFailure | notes.js:236-265 | After a failed write, no assignment starts another write or commits anything. The record keeps the new values, so store and memory may diverge. |
| SaveMachine.TwoWritesScenario | notes.js:218-266 | A new note titled "X", set to "Y" and then "Z" before its first save completes, is written exactly twice: first "X", then "Z". The title "Y" is never written, and the store ends with "Z". |
| Notes.Listeners | notes.js:254 | An event nobody subscribed to has no callbacks. |
| Notes.Note.constructor | notes.js:2-28 | The record is the hydrated initial data, both flags are false, nothing is in flight and there are no subscribers. |
| Notes.Note.Subscribe | notes.js:125-130 | The callback is appended to the event's list, which is created when missing; other events are untouched. |
| Notes.Note.SetTitle | notes.js:66-79 | The title setter takes exactly the state machine's `Edit` step. It collects the `changed` subscribers only when the value differs. |
| Notes.Note.SetText | notes.js:81-94 | The text setter takes exactly the state machine's `Edit` step. It collects the `changed` subscribers only when the value differs. |
| Notes.NotesProvider.constructor | notes.js:132-135 | The provider's store is the database as earlier sessions left it, each record under its own id. No writes and no alerts yet. |
| Notes.NotesProvider.SaveNote | notes.js:218-250 | Entered only with `saving` false: it sets `saving`, clears `dirty`, and hands the current record to `store.put` as the snapshot. |
| Notes.NotesProvider.Updated | notes.js:252-266 | Every `changed` subscriber is collected once, in registration order, for the view model to run; then comes the state machine's `Updated` flag step. |
| Notes.NotesProvider.CompleteSave | notes.js:228-235 | The transaction's "complete" event takes exactly the state machine's `Complete` step. |
| Notes.NotesProvider.FailSave | notes.js:236-239 | The transaction's "error" event takes exactly the state machine's `Fail` step. |
| Ordering.Compare | main.js:17-25 | Returns 1 exactly when the first time is older, -1 exactly when it is newer, and 0 exactly when the times are equal. |
| Ordering.CompareIsDescendingOrder | main.js:17-25 | The comparator is antisymmetric, zero on equal arguments and transitive: an order, newest first. |
| Ordering.Insert | main.js:48 | Inserting into a sequence sorted by the comparator keeps it sorted and adds exactly the one element. |
| Ordering.Sort | main.js:48 | Sorting yields a permutation of the input, ordered newest first by the comparator. |
| Ordering.SortSorted | main.js:48 | Sorting a list that is already ordered changes nothing. |
| Application.SortNewestFirst | main.js:46-49 | Sorting the items by their notes' times keeps the items and puts the list newest first. |
| Application.NoteListItem.constructor | main.js:3-15 | The item mirrors the note's title and time, and is appended to the note's `changed` subscribers. |
| Application.ViewModel.constructor | main.js:27-35 | The list is empty, with no current note and the "list" view. |
| Application.ViewModel.SortNotes | main.js:48 | Same items, newest first. |
| Application.ViewModel.AddNote | main.js:46-49 | The list is the old list plus the one new item, as a multiset, newest first. Every item still mirrors its note and is subscribed to it. |
| Application.ViewModel.NewItem | main.js:47 | The new item is subscribed to its note, and the items already listed stay mirrored and subscribed. |
| Application.ViewModel.Changed | main.js:10-14 | The item shows its note's current title and time. The list keeps its items and is newest first. |
| Application.ViewModel.Dispatch | notes.js:254-258 | The handler of every invoked list item runs, in order. Afterwards the list keeps its items, mirrors every note and is newest first. |
| Application.ViewModel.UpdateTitle | main.js:36-39 | The edited title goes through the setter, the state machine's `Edit` step. The list keeps its items, mirrors every note and stays newest first. |
| Application.ViewModel.UpdateText | main.js:41-44 | The edited text goes through the setter, the state machine's `Edit` step. The list keeps its items, mirrors every note and stays newest first. |
| Application.ViewModel.EditField | main.js:36-44 | A setter followed by the handlers it triggers: the `Edit` step, with the view model still valid. |
| Application.ViewModel.SetField | main.js:36-44 | After the setter, an item whose note changed is among the callbacks it ran. When none of them is a list item, the list is still newest first. |
| Application.ViewModel.Present | main.js:110-112 | The note is added to the list, made current and shown in the "note" view. |
| Application.ViewModel.OpenNote | main.js:51-54 | The current note is the item's note and the view is "note". |
| Application.ViewModel.CloseNote | main.js:56-59 | The view is "list" and there is no current note. |
| Application.App.constructor | main.js:62-72 | Database version 2, a fresh provider over the existing database, whose records sit under their own ids, and an empty view model on the list view. |
| Application.App.Init | notes.js:154-187 | The cursor reads the provider's store. Every record it delivers becomes a note holding exactly that record, which is the store's record for its id, with both flags false. When the cursor runs to its end there is one new note per stored record. The list gains exactly those items and stays newest first. `ready` runs exactly when the cursor ends without error, and an error raises one alert. |
| Application.App.LoadedFromStore | notes.js:161-173 | The loaded notes hold the store's records under their ids; a cursor that ran to its end yields as many notes as stored records, and every stored record is held by one of them. |
| Application.App.LoadAll | notes.js:166-175 | One new listed note per delivered record, in order, each holding its record. |
| Application.App.Load | notes.js:173 | A fresh note holding the record is added to the list, with both flags false. Its only subscriber is the new, fresh list item, on `changed`. |
| Application.App.NewNoteClicked | main.js:108-114 | A click lists exactly one new note, with a fresh id and the defaults, and makes it current in the "note" view. The item is fresh and is the note's only subscriber, on `changed`. One write of its record starts from a note with both flags false. |

## Left out

- `server.js`: a static-file HTTP server, outside the app's logic.
- `App.prototype.init` (main.js:74-104): opening the database, the upgrade event that calls `initStorage`, and `ko.applyBindings` are browser plumbing. Only its callback into `NotesProvider.init` is modelled, as `App.Init`. The database's contents when the app starts are a parameter of the constructors, and `App.Init` requires the cursor's records to be that store's records.
- The application-cache handling and `DOMContentLoaded` (main.js:118-137), and the `document.querySelector` wiring in `ready`. `ready` is the flag `App.ready`.
- `NotesProvider.prototype.addNote` (notes.js:189-216): nothing calls it. Its `addEventLister` typo would throw before the `add`.
- `UUID()` and `new Date()` are parameters. The three `new Date()` calls that build the defaults (notes.js:10, 12 and 13) are collapsed into one time `now`, which fixes `created == modified` for a new note; the source may read the clock three times. Nothing is assumed about successive times, and no property depends on `modified` growing.
- `console.log` has no effect on state. `alert` is a counter: `NotesProvider.alerts` for failed saves and `App.initAlerts` for a failed initialization; the "Got error." alert of `App.init` is not part of this model.
- `initStorage` is reduced to a map from store names to index names. Key paths, the `unique` flag and the transaction object are not modelled.
- `Memento.Hydrate`: only the six known keys of `initData` are modelled; an extra key the source would copy into the record is dropped. The id is null, undefined or a string, so falsy ids are only null, undefined and `""`.
- SetTitle and SetText compare strings by value. JavaScript's loose `!=` between a string and a value of another type is not modelled.
- Notes.NotesProvider.Updated collects the callbacks, in subscription order, before the flag logic, as the source runs them there. The view model runs their handlers afterwards, in `Dispatch`; the handlers touch neither flags nor records, so the resulting state is the same.
- Application.NoteListItem.constructor: the `viewModel` argument is dropped. The handler acts on the view model that dispatches it, which is the only one in the app.
- Ordering.Sort: the engine's sort algorithm is not modelled. The model is an insertion sort that puts each element before the first one not newer than it, so it is stable, as `Array.prototype.sort` is required to be since ECMAScript 2019; Ordering.SortSorted relies on that stability. Beyond it, only what any stable sort by the comparator gives is promised: a permutation that is ordered newest first.
- The store: a `put` of a record whose id is null would throw in IndexedDB; the model commits it under the null id. Transaction isolation, structured cloning beyond "the snapshot is taken at `put`", and ordering between writes of different notes are not modelled.
- Application.App.Init and Application.App.LoadAll: the notes they create are not stated to be fresh; only `App.Load`, one record at a time, states it.
- A note's `changed` subscribers other than list items are run by `updated` but have no handler in this model; only list items subscribe in the source.
