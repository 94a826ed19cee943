/**
 * The note store: the note and schedule tables behind the data access object,
 * and the repository that runs its commands.
 *
 * Each table is a sequence of rows in insertion order with an AUTOINCREMENT
 * counter: ids start at 1, each insert takes the next one, and ids are never
 * reused, even after the table is emptied. A repository command, launched on
 * the application scope in the app, is one completed step here.
 */
module Repository {
  import opened Wrappers
  import opened Model

  /** The schedule the join attaches to note `noteId`: the first whose owner is that note. */
  function ScheduleOf(schedules: seq<Schedule>, noteId: int): (r: Option<Schedule>)
    ensures r.Some? ==> r.value in schedules && r.value.ownerId == noteId
    ensures r.None? ==> forall s :: s in schedules ==> s.ownerId != noteId
  {
    if schedules == [] then None
    else if schedules[0].ownerId == noteId then Some(schedules[0])
    else ScheduleOf(schedules[1..], noteId)
  }

  /** `SELECT * FROM note` with each note's schedule relation: one entry per note row. */
  function Join(notes: seq<Note>, schedules: seq<Schedule>): (r: seq<NoteAndSchedule>)
    ensures |r| == |notes|
    ensures forall i :: 0 <= i < |r| ==> r[i].note == notes[i]
    ensures forall i :: 0 <= i < |r| ==> r[i].schedule == ScheduleOf(schedules, notes[i].noteId)
  {
    if notes == [] then []
    else [NoteAndSchedule(notes[0], ScheduleOf(schedules, notes[0].noteId))] + Join(notes[1..], schedules)
  }

  /** A schedule owned by another note does not change which schedule a note gets. */
  lemma {:induction false} ScheduleOfAppendOther(schedules: seq<Schedule>, s: Schedule, noteId: int)
    requires s.ownerId != noteId
    ensures ScheduleOf(schedules + [s], noteId) == ScheduleOf(schedules, noteId)
  {
    if schedules != [] {
      assert (schedules + [s])[1..] == schedules[1..] + [s];
      ScheduleOfAppendOther(schedules[1..], s, noteId);
    }
  }

  /** A note that had no schedule gets the one appended for it. */
  lemma {:induction false} ScheduleOfAppendOwn(schedules: seq<Schedule>, s: Schedule)
    requires forall t :: t in schedules ==> t.ownerId != s.ownerId
    ensures ScheduleOf(schedules + [s], s.ownerId) == Some(s)
  {
    if schedules != [] {
      assert (schedules + [s])[1..] == schedules[1..] + [s];
      ScheduleOfAppendOwn(schedules[1..], s);
    }
  }

  /**
   * Appending a note with a fresh id, and possibly a schedule owned by it, appends
   * exactly one joined entry and leaves the existing entries as they were.
   */
  lemma JoinAppend(notes: seq<Note>, schedules: seq<Schedule>, n: Note, added: seq<Schedule>)
    requires forall i :: 0 <= i < |notes| ==> notes[i].noteId != n.noteId
    requires forall t :: t in schedules ==> t.ownerId != n.noteId
    requires added == [] || (|added| == 1 && added[0].ownerId == n.noteId)
    ensures Join(notes + [n], schedules + added) == Join(notes, schedules) + [NoteAndSchedule(n, FirstOf(added))]
  {
    var r := Join(notes + [n], schedules + added);
    var e := Join(notes, schedules) + [NoteAndSchedule(n, FirstOf(added))];
    forall i | 0 <= i < |notes|
      ensures r[i] == e[i]
    {
      assert (notes + [n])[i] == notes[i];
      assert e[i] == Join(notes, schedules)[i];
      if added != [] {
        assert added == [added[0]];
        ScheduleOfAppendOther(schedules, added[0], notes[i].noteId);
      } else {
        assert schedules + added == schedules;
      }
      assert r[i].schedule == e[i].schedule;
    }
    if added != [] {
      assert added == [added[0]];
      ScheduleOfAppendOwn(schedules, added[0]);
    } else {
      assert schedules + added == schedules;
    }
  }

  /** The note and schedule tables, reached through the data access object. */
  class NoteDao {
    var notes: seq<Note>
    var schedules: seq<Schedule>
    /** The next id each table assigns. */
    var nextNoteId: int
    var nextScheduleId: int

    /** Ids are positive, below their table's counter, and increase in row order. */
    ghost predicate Valid()
      reads this
    {
      && 1 <= nextNoteId && 1 <= nextScheduleId
      && (forall i :: 0 <= i < |notes| ==> 1 <= notes[i].noteId < nextNoteId)
      && (forall i, j :: 0 <= i < j < |notes| ==> notes[i].noteId < notes[j].noteId)
      && (forall i :: 0 <= i < |schedules| ==> 1 <= schedules[i].scheduleId < nextScheduleId)
      && (forall i, j :: 0 <= i < j < |schedules| ==> schedules[i].scheduleId < schedules[j].scheduleId)
    }

    /**
     * Every schedule is owned by an id the note table has already handed out, and
     * no two schedules share an owner: at most one schedule per note, and none for
     * a note inserted later.
     */
    ghost predicate OwnersAssigned()
      reads this
    {
      && (forall i :: 0 <= i < |schedules| ==> schedules[i].ownerId < nextNoteId)
      && (forall i, j :: 0 <= i < j < |schedules| ==> schedules[i].ownerId < schedules[j].ownerId)
    }

    /** An empty database. */
    constructor ()
      ensures Valid() && OwnersAssigned()
      ensures notes == [] && schedules == [] && nextNoteId == 1 && nextScheduleId == 1
    {
      notes, schedules := [], [];
      nextNoteId, nextScheduleId := 1, 1;
    }

    /** `findAll`: every note row joined with its schedule. */
    function FindAll(): (r: seq<NoteAndSchedule>)
      reads this
      ensures |r| == |notes|
      ensures forall i :: 0 <= i < |r| ==> r[i].note == notes[i]
      ensures forall i :: 0 <= i < |r| && r[i].schedule.Some? ==>
        r[i].schedule.value in schedules && r[i].schedule.value.ownerId == notes[i].noteId
      ensures forall i :: 0 <= i < |r| && r[i].schedule.None? ==>
        forall s :: s in schedules ==> s.ownerId != notes[i].noteId
    {
      Join(notes, schedules)
    }

    /** `count`: `SELECT COUNT(*) FROM note`, the number of entries `FindAll` yields. */
    function Count(): (n: nat)
      reads this
      ensures n == |FindAll()|
    {
      |notes|
    }

    /** `insert(note)`: append the row under the next note id and return that id. */
    method InsertNote(note: Note) returns (id: int)
      requires Valid()
      modifies this`notes, this`nextNoteId
      ensures Valid()
      ensures id == old(nextNoteId) && nextNoteId == id + 1
      ensures notes == old(notes) + [note.(noteId := id)]
    {
      id := nextNoteId;
      notes := notes + [note.(noteId := id)];
      nextNoteId := nextNoteId + 1;
    }

    /** `insert(schedule)`: append the row under the next schedule id and return that id. */
    method InsertSchedule(schedule: Schedule) returns (id: int)
      requires Valid()
      modifies this`schedules, this`nextScheduleId
      ensures Valid()
      ensures id == old(nextScheduleId) && nextScheduleId == id + 1
      ensures schedules == old(schedules) + [schedule.(scheduleId := id)]
    {
      id := nextScheduleId;
      schedules := schedules + [schedule.(scheduleId := id)];
      nextScheduleId := nextScheduleId + 1;
    }

    /** `deleteNotes`: empty the note table; schedules stay, possibly orphaned. */
    method DeleteNotes()
      requires Valid()
      modifies this`notes
      ensures Valid()
      ensures notes == [] && Count() == 0
      ensures old(OwnersAssigned()) ==> OwnersAssigned()
    {
      notes := [];
    }

    /** `deleteSchedules`: empty the schedule table; notes stay. */
    method DeleteSchedules()
      requires Valid()
      modifies this`schedules
      ensures Valid() && OwnersAssigned()
      ensures schedules == []
    {
      schedules := [];
    }

    /**
     * `generateNote`, one transaction: insert the generated note, then, when a
     * schedule was generated, insert it owned by the new note's id; return that id.
     */
    method GenerateNote(note: Note, schedule: Option<Schedule>) returns (noteId: int)
      requires Valid()
      modifies this
      ensures Valid()
      ensures noteId == old(nextNoteId) && nextNoteId == noteId + 1
      ensures nextScheduleId == old(nextScheduleId) + |Owned(schedule, noteId, old(nextScheduleId))|
      ensures notes == old(notes) + [note.(noteId := noteId)]
      ensures schedules == old(schedules) + Owned(schedule, noteId, old(nextScheduleId))
      ensures Count() == old(Count()) + 1
      ensures old(|schedules|) <= |schedules| <= old(|schedules|) + 1
      ensures old(OwnersAssigned()) ==> OwnersAssigned()
      ensures old(OwnersAssigned()) ==>
        FindAll() == old(FindAll()) + [NoteAndSchedule(note.(noteId := noteId), FirstOf(Owned(schedule, noteId, old(nextScheduleId))))]
    {
      ghost var notes0, schedules0, owners0 := notes, schedules, OwnersAssigned();
      ghost var added := Owned(schedule, nextNoteId, nextScheduleId);
      noteId := InsertNote(note);
      if schedule.Some? {
        var owned := schedule.value.(ownerId := noteId);
        var _ := InsertSchedule(owned);
      }
      assert schedules == schedules0 + added;
      if owners0 {
        assert forall t :: t in schedules0 ==> t.ownerId != noteId;
        JoinAppend(notes0, schedules0, note.(noteId := noteId), added);
      }
    }
  }

  /** The schedule rows `generateNote` appends: the drawn schedule, if any, owned by `noteId`. */
  function Owned(schedule: Option<Schedule>, noteId: int, scheduleId: int): (r: seq<Schedule>)
    ensures |r| <= 1 && (|r| == 1 <==> schedule.Some?)
    ensures forall s :: s in r ==> s.ownerId == noteId && s.scheduleId == scheduleId
  {
    if schedule.Some? then [schedule.value.(ownerId := noteId, scheduleId := scheduleId)] else []
  }

  /** The first row of `rows`, if any. */
  function FirstOf(rows: seq<Schedule>): Option<Schedule> {
    if rows == [] then None else Some(rows[0])
  }

  /** `NoteRepository`: the commands the view model issues, over one data access object. */
  class NoteRepository {
    const dao: NoteDao

    constructor (dao: NoteDao)
      ensures this.dao == dao
    {
      this.dao := dao;
    }

    /** `notes`: the observable list, as the join of the current tables. */
    function Notes(): (r: seq<NoteAndSchedule>)
      reads this, dao
      ensures |r| == |dao.notes|
      ensures forall i :: 0 <= i < |r| ==> r[i].note == dao.notes[i]
      ensures forall i :: 0 <= i < |r| && r[i].schedule.Some? ==>
        r[i].schedule.value in dao.schedules && r[i].schedule.value.ownerId == dao.notes[i].noteId
      ensures forall i :: 0 <= i < |r| && r[i].schedule.None? ==>
        forall s :: s in dao.schedules ==> s.ownerId != dao.notes[i].noteId
    {
      dao.FindAll()
    }

    /** `noteCount`: the observable count, as the current number of notes. */
    function NoteCount(): (n: nat)
      reads this, dao
      ensures n == |Notes()|
    {
      dao.Count()
    }

    /** `generateNote`: the generated note and optional schedule, stored as one new entry. */
    method GenerateNote(note: Note, schedule: Option<Schedule>)
      requires dao.Valid() && dao.OwnersAssigned()
      modifies dao
      ensures dao.Valid() && dao.OwnersAssigned()
      ensures dao.notes == old(dao.notes) + [note.(noteId := old(dao.nextNoteId))]
      ensures dao.schedules == old(dao.schedules) + Owned(schedule, old(dao.nextNoteId), old(dao.nextScheduleId))
      ensures dao.nextNoteId == old(dao.nextNoteId) + 1
      ensures dao.nextScheduleId == old(dao.nextScheduleId) + |Owned(schedule, old(dao.nextNoteId), old(dao.nextScheduleId))|
      ensures NoteCount() == old(NoteCount()) + 1
      ensures old(|dao.schedules|) <= |dao.schedules| <= old(|dao.schedules|) + 1
      ensures |Notes()| == old(|Notes()|) + 1 && Notes()[..old(|Notes()|)] == old(Notes())
      ensures var e := Notes()[|Notes()| - 1];
        && e.note == note.(noteId := old(dao.nextNoteId))
        && (e.schedule.Some? <==> schedule.Some?)
        && (e.schedule.Some? ==> e.schedule.value.date == schedule.value.date && e.schedule.value.ownerId == e.note.noteId)
    {
      var _ := dao.GenerateNote(note, schedule);
    }

    /** `deleteNotes`: delete every note, then every schedule; both tables end empty. */
    method DeleteNotes()
      requires dao.Valid() && dao.OwnersAssigned()
      modifies dao
      ensures dao.Valid() && dao.OwnersAssigned()
      ensures dao.notes == [] && dao.schedules == []
      ensures Notes() == [] && NoteCount() == 0
      ensures dao.nextNoteId == old(dao.nextNoteId) && dao.nextScheduleId == old(dao.nextScheduleId)
    {
      dao.DeleteNotes();
      dao.DeleteSchedules();
    }
  }

  /**
   * The first-creation callback of the database: ten `generateNote` calls on the
   * empty tables, each given the note and optional schedule the generator drew.
   */
  method PopulateDatabase(dao: NoteDao, generated: seq<(Note, Option<Schedule>)>)
    requires |generated| == 10
    requires dao.Valid() && dao.OwnersAssigned() && dao.notes == [] && dao.schedules == []
    modifies dao
    ensures dao.Valid() && dao.OwnersAssigned()
    ensures dao.Count() == 10
    ensures |dao.schedules| <= 10
    ensures forall i :: 0 <= i < 10 ==> dao.notes[i] == generated[i].0.(noteId := old(dao.nextNoteId) + i)
  {
    var k := 0;
    while k < 10
      invariant 0 <= k <= 10
      invariant dao.Valid() && dao.OwnersAssigned()
      invariant |dao.notes| == k && |dao.schedules| <= k
      invariant dao.nextNoteId == old(dao.nextNoteId) + k
      invariant forall i :: 0 <= i < k ==> dao.notes[i] == generated[i].0.(noteId := old(dao.nextNoteId) + i)
    {
      var _ := dao.GenerateNote(generated[k].0, generated[k].1);
      k := k + 1;
    }
  }
}
