/**
 * The per-note save-coalescing state machine of `NotesProvider` (notes.js),
 * as pure functions on the state one note sees: its memento, its `dirty` and
 * `saving` flags, the snapshot of the write in flight, and the provider's
 * store, log of writes started and alert count.
 *
 * The classes in module Notes are proved to follow these functions step by
 * step; the lemmas here state what the source promises of whole runs.
 */
module SaveMachine {
  import opened Wrappers
  import opened Memento

  /** The two fields a user edits. */
  datatype Field = Title | Text

  /** One assignment `note.title = value` or `note.text = value` made at time `now`. */
  datatype Change = Change(field: Field, value: string, now: Time)

  function Get(m: Record, f: Field): string
  {
    match f
    case Title => m.title
    case Text => m.text
  }

  /** The memento after a changing assignment: the field and `modified`, nothing else. */
  function Put(m: Record, f: Field, v: string, now: Time): (r: Record)
    ensures Get(r, f) == v && r.modified == now
    ensures forall g: Field | g != f :: Get(r, g) == Get(m, g)
    ensures r.id == m.id && r.created == m.created && r.format == m.format
  {
    match f
    case Title => m.(title := v, modified := now)
    case Text => m.(text := v, modified := now)
  }

  /** The setter on the memento alone: assigning the current value changes nothing. */
  function Assign(m: Record, c: Change): Record
  {
    if Get(m, c.field) == c.value then m else Put(m, c.field, c.value, c.now)
  }

  /** The memento after a sequence of assignments. */
  function Apply(m: Record, cs: seq<Change>): Record
    decreases |cs|
  {
    if cs == [] then m else Apply(Assign(m, cs[0]), cs[1..])
  }

  /** `id` and `created` have getters only, and `format` no setter: no run of assignments changes them. */
  lemma {:induction false} ApplyKeepsIdentity(m: Record, cs: seq<Change>)
    ensures Apply(m, cs).id == m.id && Apply(m, cs).created == m.created && Apply(m, cs).format == m.format
    decreases |cs|
  {
    if cs != [] {
      ApplyKeepsIdentity(Assign(m, cs[0]), cs[1..]);
    }
  }

  /** Some assignment of `cs` actually changes the value it assigns. */
  predicate Effective(m: Record, cs: seq<Change>)
    decreases |cs|
  {
    cs != [] && (Get(m, cs[0].field) != cs[0].value || Effective(Assign(m, cs[0]), cs[1..]))
  }

  datatype Sync = Sync(
    memento: Record,
    dirty: bool,
    saving: bool,
    inFlight: Option<Record>,    // the record handed to `store.put` by the transaction in flight
    store: map<Id, Record>,      // what the database holds, keyed by id
    writes: seq<Record>,         // every payload handed to `store.put`, in order
    alerts: nat)                 // "Failed to save note." alerts raised

  /** dirty implies saving, and a transaction in flight implies saving. */
  predicate FlagsOk(dirty: bool, saving: bool, inFlight: Option<Record>)
  {
    (dirty ==> saving) && (inFlight.Some? ==> saving)
  }

  /** While a write is in flight and the note is clean, the write carries the note's state. */
  predicate SnapshotOk(memento: Record, dirty: bool, saving: bool, inFlight: Option<Record>)
  {
    saving && !dirty && inFlight.Some? ==> inFlight.value == memento
  }

  predicate Inv(s: Sync)
  {
    FlagsOk(s.dirty, s.saving, s.inFlight) && SnapshotOk(s.memento, s.dirty, s.saving, s.inFlight)
  }

  /** No failed write has left the note marked as saving forever. */
  predicate Healthy(s: Sync)
  {
    s.saving ==> s.inFlight.Some?
  }

  /** `saveNote`: mark saving, clear dirty, hand the current memento to `store.put`. */
  function StartSave(s: Sync): (r: Sync)
    ensures Inv(r) && Healthy(r) && r.saving && !r.dirty
    ensures |r.writes| == |s.writes| + 1 && r.writes[..|s.writes|] == s.writes
    ensures r.inFlight == Some(s.memento) && r.writes[|s.writes|] == s.memento
    ensures r.memento == s.memento && r.store == s.store && r.alerts == s.alerts
  {
    s.(saving := true, dirty := false, inFlight := Some(s.memento), writes := s.writes + [s.memento])
  }

  /** The flag logic of `updated`, after the subscribers have run. */
  function Updated(s: Sync): (r: Sync)
    ensures r.dirty || r.saving
    ensures |r.writes| != |s.writes| <==> !s.dirty && !s.saving
    ensures r.writes == s.writes || r.writes == s.writes + [s.memento]
    ensures r.memento == s.memento && r.store == s.store && r.alerts == s.alerts
  {
    if !s.dirty && !s.saving then StartSave(s.(dirty := true))
    else if !s.dirty && s.saving then s.(dirty := true)
    else s
  }

  /** A `title`/`text` setter: a changing value updates the memento, then `updated` runs. */
  function Edit(s: Sync, c: Change): (r: Sync)
    ensures r == s <==> Get(s.memento, c.field) == c.value
    ensures r.memento == Assign(s.memento, c)
    ensures r.store == s.store && r.alerts == s.alerts
  {
    if Get(s.memento, c.field) == c.value then s
    else Updated(s.(memento := Put(s.memento, c.field, c.value, c.now)))
  }

  /** The transaction's "complete" event: the write is committed, saving is cleared, a dirty note is saved again. */
  function Complete(s: Sync): (r: Sync)
    requires s.inFlight.Some?
    ensures r.store == s.store[s.inFlight.value.id := s.inFlight.value]
    ensures r.saving <==> s.dirty
    ensures !r.dirty && r.memento == s.memento && r.alerts == s.alerts
  {
    var snap := s.inFlight.value;
    var t := s.(saving := false, inFlight := None, store := s.store[snap.id := snap]);
    if t.dirty then StartSave(t) else t
  }

  /** The transaction's "error" event: one alert; `saving` stays set, since "complete" never follows. */
  function Fail(s: Sync): (r: Sync)
    requires s.inFlight.Some?
    ensures r.alerts == s.alerts + 1 && r.inFlight.None?
    ensures s.saving ==> !Healthy(r) && r.saving
    ensures r.memento == s.memento && r.dirty == s.dirty && r.store == s.store && r.writes == s.writes
  {
    s.(inFlight := None, alerts := s.alerts + 1)
  }

  /** The state after a sequence of assignments with no transaction event in between. */
  function Run(s: Sync, cs: seq<Change>): Sync
    decreases |cs|
  {
    if cs == [] then s else Run(Edit(s, cs[0]), cs[1..])
  }

  /** Writes still to complete: the one in flight and the follow-up a dirty note owes. */
  function Pending(s: Sync): nat
  {
    (if s.inFlight.Some? then 1 else 0) + (if s.dirty then 1 else 0)
  }

  /** Let every write in flight, and every follow-up it triggers, complete. */
  function Drain(s: Sync): Sync
    decreases Pending(s)
  {
    if s.inFlight.Some? then Drain(Complete(s)) else s
  }

  // ---------------------------------------------------------------------
  // One step

  /**
   * `updated`: a write starts exactly when none is in flight; otherwise the
   * note is only marked dirty. Either way the invariant is restored.
   */
  lemma UpdatedStartsAtMostOneWrite(s: Sync)
    requires FlagsOk(s.dirty, s.saving, s.inFlight)
    ensures Inv(Updated(s)) && Updated(s).saving
    ensures Updated(s).writes == if s.saving then s.writes else s.writes + [s.memento]
    ensures s.saving ==> Updated(s).dirty && Updated(s).inFlight == s.inFlight
    ensures Updated(s).memento == s.memento && Updated(s).store == s.store
  {
  }

  /**
   * A setter given the current value is a complete no-op; given another
   * value it changes only that field and `modified`, and keeps the invariant.
   */
  lemma EditStep(s: Sync, c: Change)
    requires Inv(s)
    ensures Get(s.memento, c.field) == c.value ==> Edit(s, c) == s
    ensures Get(s.memento, c.field) != c.value ==>
      Edit(s, c).memento == Put(s.memento, c.field, c.value, c.now) && Edit(s, c).saving
    ensures Inv(Edit(s, c)) && Edit(s, c).memento == Assign(s.memento, c)
    ensures Edit(s, c).store == s.store && Edit(s, c).alerts == s.alerts
  {
  }

  /**
   * A successful completion commits the snapshot; a clean note is then idle
   * and the store holds exactly its state, a dirty note starts exactly one
   * more write carrying its current state.
   */
  lemma CompleteStep(s: Sync)
    requires Inv(s) && s.inFlight.Some?
    ensures Inv(Complete(s)) && Healthy(Complete(s))
    ensures !s.dirty ==>
      var c := Complete(s);
      !c.saving && !c.dirty && c.writes == s.writes && c.memento.id in c.store && c.store[c.memento.id] == c.memento
    ensures s.dirty ==>
      var c := Complete(s);
      c.saving && !c.dirty && c.inFlight == Some(s.memento) && c.writes == s.writes + [s.memento]
    ensures Complete(s).memento == s.memento
  {
  }

  /** A failed write raises one alert and leaves the note saving with nothing in flight. */
  lemma FailStep(s: Sync)
    requires Inv(s) && s.inFlight.Some?
    ensures Inv(Fail(s)) && Fail(s).saving && Fail(s).inFlight.None?
    ensures Fail(s).alerts == s.alerts + 1
    ensures Fail(s).memento == s.memento && Fail(s).dirty == s.dirty
    ensures Fail(s).store == s.store && Fail(s).writes == s.writes
  {
  }

  // ---------------------------------------------------------------------
  // Runs of assignments

  /** The invariant holds after any run of assignments, healthy notes stay healthy, and the memento is `Apply`'s. */
  lemma {:induction false} RunInvariant(s: Sync, cs: seq<Change>)
    requires Inv(s)
    ensures Inv(Run(s, cs)) && Run(s, cs).memento == Apply(s.memento, cs)
    ensures Healthy(s) ==> Healthy(Run(s, cs))
    ensures Effective(s.memento, cs) ==> Run(s, cs).saving
    ensures s.saving ==> Run(s, cs).saving
    ensures Run(s, cs).store == s.store && Run(s, cs).alerts == s.alerts
    decreases |cs|
  {
    if cs != [] {
      EditStep(s, cs[0]);
      RunInvariant(Edit(s, cs[0]), cs[1..]);
    }
  }

  /**
   * While a write is in flight, assignments never start another write; they
   * only mark the note dirty, and do so exactly when one of them changes a value.
   */
  lemma {:induction false} RunWhileSaving(s: Sync, cs: seq<Change>)
    requires Inv(s) && s.saving
    ensures var t := Run(s, cs);
      t.saving && t.inFlight == s.inFlight && t.writes == s.writes && t.store == s.store
    ensures Run(s, cs).dirty == (s.dirty || Effective(s.memento, cs))
    ensures Run(s, cs).memento == Apply(s.memento, cs)
    decreases |cs|
  {
    if cs != [] {
      EditStep(s, cs[0]);
      RunWhileSaving(Edit(s, cs[0]), cs[1..]);
    }
  }

  /**
   * Coalescing: once a write is in flight for a clean note, any burst of
   * assignments containing at least one change yields, on completion, exactly
   * one follow-up write, and it carries the final state; no intermediate state
   * is ever written. When that write completes too, the store holds the final state.
   */
  lemma Coalesce(s: Sync, cs: seq<Change>)
    requires Inv(s) && s.saving && !s.dirty && s.inFlight.Some?
    requires Effective(s.memento, cs)
    ensures Run(s, cs).inFlight == s.inFlight
    ensures var u := Complete(Run(s, cs));
      u.writes == s.writes + [Apply(s.memento, cs)] && u.inFlight == Some(Apply(s.memento, cs)) &&
      u.store == s.store[s.inFlight.value.id := s.inFlight.value] && u.saving && !u.dirty
    ensures var w := Complete(Complete(Run(s, cs)));
      var m := Apply(s.memento, cs);
      w.writes == s.writes + [m] && !w.saving && !w.dirty && w.memento == m && w.store[m.id] == m
  {
    RunWhileSaving(s, cs);
    RunInvariant(s, cs);
    CompleteStep(Run(s, cs));
    CompleteStep(Complete(Run(s, cs)));
  }

  /** A burst with no change at all leaves the state exactly as it was. */
  lemma {:induction false} RunIneffective(s: Sync, cs: seq<Change>)
    requires !Effective(s.memento, cs)
    ensures Run(s, cs) == s
    decreases |cs|
  {
    if cs != [] {
      assert Edit(s, cs[0]) == s;
      RunIneffective(s, cs[1..]);
    }
  }

  /** Draining a healthy note that is saving leaves it idle with the store holding its state. */
  lemma {:induction false} DrainSettles(s: Sync)
    requires Inv(s) && Healthy(s)
    ensures var d := Drain(s);
      Inv(d) && !d.dirty && d.memento == s.memento && d.alerts == s.alerts
    ensures s.saving ==> var d := Drain(s);
      !d.saving && d.memento.id in d.store && d.store[d.memento.id] == d.memento
    ensures !s.saving ==> Drain(s) == s
    decreases Pending(s)
  {
    if s.inFlight.Some? {
      CompleteStep(s);
      DrainSettles(Complete(s));
    }
  }

  /**
   * Eventual consistency: starting from a note that is saving or that some
   * assignment changes, once every write has completed successfully the note
   * is idle and the store's record for its id equals its final state.
   */
  lemma EventuallyConsistent(s: Sync, cs: seq<Change>)
    requires Inv(s) && Healthy(s)
    requires s.saving || Effective(s.memento, cs)
    ensures var d := Drain(Run(s, cs));
      var m := Apply(s.memento, cs);
      !d.saving && !d.dirty && d.memento == m && m.id in d.store && d.store[m.id] == m
  {
    RunInvariant(s, cs);
    DrainSettles(Run(s, cs));
  }

  // ---------------------------------------------------------------------
  // Interleaved schedules

  /** What can happen to one note: a setter call, or the "complete" event of its transaction. */
  datatype Event = Assignment(c: Change) | Completion

  /** One event; a completion with no transaction in flight is no event at all. */
  function Happen(s: Sync, e: Event): Sync
  {
    match e
    case Assignment(c) => Edit(s, c)
    case Completion => if s.inFlight.Some? then Complete(s) else s
  }

  /** The state after a schedule of assignments and completions, in order. */
  function Steps(s: Sync, es: seq<Event>): Sync
    decreases |es|
  {
    if es == [] then s else Steps(Happen(s, es[0]), es[1..])
  }

  /** The assignments of a schedule, in order. */
  function Changes(es: seq<Event>): seq<Change>
    decreases |es|
  {
    if es == [] then []
    else if es[0].Assignment? then [es[0].c] + Changes(es[1..])
    else Changes(es[1..])
  }

  /** A note that is not saving is what the store holds for its id. */
  predicate Settled(s: Sync)
  {
    !s.saving ==> s.memento.id in s.store && s.store[s.memento.id] == s.memento
  }

  /** One event keeps the invariant, health and settledness, and an assignment is applied to the memento. */
  lemma HappenKeeps(s: Sync, e: Event)
    requires Inv(s) && Healthy(s) && Settled(s)
    ensures var t := Happen(s, e); Inv(t) && Healthy(t) && Settled(t)
    ensures Happen(s, e).memento == if e.Assignment? then Assign(s.memento, e.c) else s.memento
  {
    match e
    case Assignment(c) =>
      EditStep(s, c);
    case Completion =>
      if s.inFlight.Some? {
        CompleteStep(s);
      }
  }

  /** Any schedule keeps the invariant, health and settledness, and its memento is its assignments applied in order. */
  lemma {:induction false} StepsKeep(s: Sync, es: seq<Event>)
    requires Inv(s) && Healthy(s) && Settled(s)
    ensures var t := Steps(s, es); Inv(t) && Healthy(t) && Settled(t)
    ensures Steps(s, es).memento == Apply(s.memento, Changes(es))
    decreases |es|
  {
    if es != [] {
      HappenKeeps(s, es[0]);
      StepsKeep(Happen(s, es[0]), es[1..]);
      if es[0].Assignment? {
        var cs := Changes(es);
        assert cs[0] == es[0].c && cs[1..] == Changes(es[1..]);
      }
    }
  }

  /**
   * Eventual consistency under any interleaving: from a settled note, after
   * any schedule of assignments and completions, once every write still
   * owed has completed successfully the note is idle and the store's record
   * for its id equals its final state.
   */
  lemma InterleavedConsistent(s: Sync, es: seq<Event>)
    requires Inv(s) && Healthy(s) && Settled(s)
    ensures var d := Drain(Steps(s, es));
      var m := Apply(s.memento, Changes(es));
      !d.saving && !d.dirty && d.memento == m && m.id in d.store && d.store[m.id] == m
  {
    StepsKeep(s, es);
    DrainSettles(Steps(s, es));
  }

  /**
   * After a failed write the note is stranded: no assignment ever starts
   * another write, nothing is committed, and the memento keeps the new values,
   * so store and memory may diverge.
   */
  lemma {:induction false} StrandedAfterFailure(s: Sync, cs: seq<Change>)
    requires Inv(s) && s.saving && s.inFlight.None?
    ensures var t := Run(s, cs);
      t.saving && t.inFlight.None? && t.writes == s.writes && t.store == s.store
    ensures Run(s, cs).memento == Apply(s.memento, cs)
    decreases |cs|
  {
    if cs != [] {
      EditStep(s, cs[0]);
      StrandedAfterFailure(Edit(s, cs[0]), cs[1..]);
    }
  }

  /**
   * The scenario of a new note titled "X" whose title is set to "Y" and then
   * "Z" before its first save completes: exactly two writes, the second with
   * title "Z", and no write with title "Y".
   */
  lemma TwoWritesScenario(s0: Sync, t1: Time, t2: Time)
    requires !s0.dirty && !s0.saving && s0.inFlight.None? && s0.memento.title == "X"
    ensures var s2 := Run(StartSave(s0), [Change(Title, "Y", t1), Change(Title, "Z", t2)]);
      var d := Drain(s2);
      |d.writes| == |s0.writes| + 2 && d.writes[|s0.writes|] == s0.memento &&
      d.writes[|s0.writes| + 1].title == "Z" &&
      (forall k | |s0.writes| <= k < |d.writes| :: d.writes[k].title != "Y") &&
      s0.memento.id in d.store && d.store[s0.memento.id].title == "Z"
  {
    var s1 := StartSave(s0);
    var cs := [Change(Title, "Y", t1), Change(Title, "Z", t2)];
    var m2 := Assign(Assign(s1.memento, cs[0]), cs[1]);
    assert Apply(s1.memento, cs) == m2 by {
      assert cs[1..][0] == cs[1] && cs[1..][1..] == [];
      assert Apply(s1.memento, cs) == Apply(Assign(s1.memento, cs[0]), cs[1..]);
      assert Apply(Assign(s1.memento, cs[0]), cs[1..]) == Apply(m2, []);
    }
    assert Effective(s1.memento, cs);
    Coalesce(s1, cs);
    RunInvariant(s1, cs);
    var u := Complete(Run(s1, cs));
    CompleteStep(u);
    assert Drain(Run(s1, cs)) == Drain(u);
    assert Drain(u) == Drain(Complete(u));
  }
}
