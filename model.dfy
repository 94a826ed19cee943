/** Optional values, standing in for Kotlin's nullable types. */
module Wrappers {

  datatype Option<+T> = None | Some(value: T)
}

/**
 * The persisted entities of the notes application: a note, the schedule that may
 * be attached to it, and the read-only join of the two that the list shows.
 * Timestamps are epoch milliseconds, as the database stores them.
 */
module Model {
  import opened Wrappers

  /**
   * The category tag of a note. `Untyped` stands for the constant `NONE`,
   * renamed so as not to clash with `Option.None`.
   */
  datatype NoteType = Untyped | Todo | Shopping | Work | Family

  /** The lifecycle state of a note. */
  datatype NoteState = InProgress | Done

  /** A row of the note table; `noteId` is assigned by the table on insertion. */
  datatype Note = Note(
    noteId: int,
    title: string,
    text: string,
    noteType: NoteType,
    state: NoteState,
    creationDate: int)

  /** A row of the schedule table; `ownerId` refers to a note id, unenforced. */
  datatype Schedule = Schedule(scheduleId: int, ownerId: int, date: int)

  /** A note paired with its schedule, if the schedule table holds one for it. */
  datatype NoteAndSchedule = NoteAndSchedule(note: Note, schedule: Option<Schedule>)
}
