/**
 * The persisted record of a note (its "memento"), how the `Note` constructor
 * builds it from optional initial data, `Note.prototype.format`, and the
 * schema set-up `NotesProvider.prototype.initStorage` as a map from object
 * store names to index names.
 */
module Memento {
  import opened Wrappers

  /** A note id. `NoId` is JavaScript's `null`/`undefined`; `Id` carries a string. */
  datatype Id = NoId | Id(value: string)

  /** JavaScript truthiness of an id value: null, undefined and "" are falsy. */
  predicate Truthy(k: Id)
  {
    k.Id? && k.value != ""
  }

  /** Timestamps (JavaScript `Date`s) are compared by their numeric value. */
  type Time = int

  /** The stored record `{id, title, text, created, modified, format}`. */
  datatype Record = Record(id: Id, title: string, text: string, created: Time, modified: Time, format: string)

  /**
   * The `initData` object handed to the constructor: each key is either
   * present (`Some`) or absent (`None`).
   */
  datatype InitData = InitData(
    id: Option<Id>, title: Option<string>, text: Option<string>,
    created: Option<Time>, modified: Option<Time>, format: Option<string>)

  /** The memento before `initData` is applied; `stamp` is the text of `new Date()`. */
  function Defaults(now: Time, stamp: string): (r: Record)
    ensures r.id == NoId && r.created == now && r.modified == now
    ensures r.title == "Note " + stamp && r.text == "New note." && r.format == "text"
  {
    Record(NoId, "Note " + stamp, "New note.", now, now, "text")
  }

  /** Every key present in `d` overwrites the corresponding field of `m`. */
  function Overlay(m: Record, d: InitData): Record
  {
    Record(
      d.id.GetOr(m.id), d.title.GetOr(m.title), d.text.GetOr(m.text),
      d.created.GetOr(m.created), d.modified.GetOr(m.modified), d.format.GetOr(m.format))
  }

  /**
   * The memento built by `new Note(provider, init)`, where `freshId` is what
   * `UUID()` returns and `now`/`stamp` stand for `new Date()`.
   */
  function Hydrate(init: Option<InitData>, freshId: string, now: Time, stamp: string): (r: Record)
    // without initial data the note gets the generated id and the defaults
    ensures init.None? ==> r == Record(Id(freshId), "Note " + stamp, "New note.", now, now, "text")
    // a supplied id, truthy or not, is the final id; an absent one is replaced by the generated id
    ensures init.Some? ==> r.id == init.value.id.GetOr(Id(freshId))
    // every other supplied key overwrites its default
    ensures init.Some? ==> r.title == init.value.title.GetOr("Note " + stamp)
    ensures init.Some? ==> r.text == init.value.text.GetOr("New note.")
    ensures init.Some? ==> r.created == init.value.created.GetOr(now)
    ensures init.Some? ==> r.modified == init.value.modified.GetOr(now)
    ensures init.Some? ==> r.format == init.value.format.GetOr("text")
  {
    var base := Defaults(now, stamp);
    match init
    case None => base.(id := Id(freshId))
    case Some(d) =>
      var seeded := if !Truthy(d.id.GetOr(NoId)) then base.(id := Id(freshId)) else base;
      Overlay(seeded, d)
  }

  /** A stored record seen as `initData`: every key is present. */
  function AsInitData(r: Record): InitData
  {
    InitData(Some(r.id), Some(r.title), Some(r.text), Some(r.created), Some(r.modified), Some(r.format))
  }

  /** Hydrating a note from a stored record reproduces that record, whatever its id. */
  lemma HydrateStored(r: Record, freshId: string, now: Time, stamp: string)
    ensures Hydrate(Some(AsInitData(r)), freshId, now, stamp) == r
  {
  }

  /** `Note.prototype.format`: the data when the formats agree, `undefined` otherwise. */
  function Format(inputFormat: string, outputFormat: string, data: string): (r: Option<string>)
    ensures r.Some? <==> inputFormat == outputFormat
    ensures r.Some? ==> r.value == data
  {
    if inputFormat == outputFormat then Some(data) else None
  }

  /** Object store names of the database, each with the names of its indexes. */
  type Schema = map<string, set<string>>

  /** `initStorage`: create the "notes" store and its two indexes where absent. */
  function InitStorage(db: Schema): (r: Schema)
    ensures r.Keys == db.Keys + {"notes"}
    ensures "modified" in r["notes"] && "created" in r["notes"]
    ensures "notes" in db ==> db["notes"] <= r["notes"]
    ensures forall x | x in r["notes"] :: x == "modified" || x == "created" || ("notes" in db && x in db["notes"])
    ensures forall n | n in db && n != "notes" :: r[n] == db[n]
  {
    var indexes := if "notes" in db then db["notes"] else {};
    db["notes" := indexes + {"modified", "created"}]
  }

  /** Running the schema set-up a second time changes nothing. */
  lemma InitStorageIdempotent(db: Schema)
    ensures InitStorage(InitStorage(db)) == InitStorage(db)
  {
  }
}
