/**
 * The note view model: the sort-order preference, the repository's observable
 * list and count, and the sorted list derived from both.
 */
module ViewModel {
  import opened Wrappers
  import opened Model
  import opened Sorting
  import opened Lifecycle
  import opened Repository

  /** The preference key under which the sort order is persisted. */
  const SortOrderKey: string := "sort_order"

  class NoteViewModel {
    const repository: NoteRepository
    /** The persisted sort order, NONE when never set. */
    const sortOrder: EnumPreferenceLiveData<SortOrder>

    ghost predicate Valid()
      reads this, repository, repository.dao, sortOrder, sortOrder.prefs
    {
      && repository.dao.Valid() && repository.dao.OwnersAssigned()
      && sortOrder.Valid()
      && sortOrder.key == SortOrderKey
      && sortOrder.defaultValue == Unsorted
      && sortOrder.constants == Constants
      && sortOrder.name == Name
    }

    constructor (repository: NoteRepository, prefs: SharedPreferences)
      requires repository.dao.Valid() && repository.dao.OwnersAssigned()
      ensures Valid()
      ensures this.repository == repository && sortOrder.prefs == prefs
      ensures fresh(sortOrder) && sortOrder.value == None && !sortOrder.active
    {
      this.repository := repository;
      forall o: SortOrder
        ensures o in Constants
      {
        ConstantsComplete(o);
      }
      ConstantsComplete(Unsorted);
      sortOrder := new EnumPreferenceLiveData(prefs, SortOrderKey, Unsorted, Constants, Name);
    }

    /** `allNotes`: the repository's current list. */
    function AllNotes(): (r: seq<NoteAndSchedule>)
      reads this, repository, repository.dao
      ensures |r| == |repository.dao.notes|
      ensures forall i :: 0 <= i < |r| ==> r[i].note == repository.dao.notes[i]
      ensures forall i :: 0 <= i < |r| && r[i].schedule.Some? ==>
        r[i].schedule.value in repository.dao.schedules && r[i].schedule.value.ownerId == repository.dao.notes[i].noteId
      ensures forall i :: 0 <= i < |r| && r[i].schedule.None? ==>
        forall s :: s in repository.dao.schedules ==> s.ownerId != repository.dao.notes[i].noteId
    {
      repository.Notes()
    }

    /** `noteCount`: the repository's current count, the length of the list. */
    function NoteCount(): (n: nat)
      reads this, repository, repository.dao
      ensures n == |AllNotes()|
    {
      repository.NoteCount()
    }

    /**
     * `sortedNotes`: the current sort order's sorter applied to the current list;
     * nothing while the sort order has not been loaded yet.
     */
    function SortedNotes(): (r: Option<seq<NoteAndSchedule>>)
      reads this, repository, repository.dao, sortOrder
      ensures r.None? <==> sortOrder.value.None?
      ensures r.Some? ==> multiset(r.value) == multiset(AllNotes())
      ensures r.Some? ==>
        Sorted(sortOrder.value.value, r.value) && SameClasses(sortOrder.value.value, AllNotes(), r.value)
    {
      match sortOrder.value
      case None => None
      case Some(o) =>
        SorterIsTheStableSort(o, AllNotes(), AllNotes());
        Some(Sorter(o, AllNotes()))
    }

    /**
     * `setSortOrder`: write the order to the preference store, which then notifies
     * the sort-order observable; while it is observed, the sorted list follows.
     */
    method SetSortOrder(o: SortOrder)
      requires Valid()
      modifies sortOrder`value, sortOrder.prefs`entries
      ensures Valid()
      ensures sortOrder.prefs.listeners == old(sortOrder.prefs.listeners)
      ensures sortOrder.prefs.entries == old(sortOrder.prefs.entries)[SortOrderKey := Name(o)]
      ensures sortOrder.active == old(sortOrder.active)
      ensures sortOrder.active ==> sortOrder.value == Some(o) && SortedNotes() == Some(Sorter(o, AllNotes()))
      ensures !sortOrder.active ==> sortOrder.value == old(sortOrder.value)
    {
      sortOrder.SetValue(o);
      var _ := sortOrder.NotifyChanged(sortOrder.key);
    }

    /** `generateNote`: one generated entry is appended, and the sorted list re-sorts it in. */
    method GenerateNote(note: Note, schedule: Option<Schedule>)
      requires Valid()
      modifies repository.dao
      ensures Valid()
      ensures NoteCount() == old(NoteCount()) + 1
      ensures AllNotes()[..old(|AllNotes()|)] == old(AllNotes())
      ensures var e := AllNotes()[|AllNotes()| - 1];
        && e.note == note.(noteId := old(repository.dao.nextNoteId))
        && (e.schedule.Some? <==> schedule.Some?)
        && (e.schedule.Some? ==> e.schedule.value.date == schedule.value.date && e.schedule.value.ownerId == e.note.noteId)
      ensures repository.dao.notes == old(repository.dao.notes) + [note.(noteId := old(repository.dao.nextNoteId))]
      ensures repository.dao.schedules ==
        old(repository.dao.schedules) + Owned(schedule, old(repository.dao.nextNoteId), old(repository.dao.nextScheduleId))
      ensures repository.dao.nextNoteId == old(repository.dao.nextNoteId) + 1
      ensures repository.dao.nextScheduleId ==
        old(repository.dao.nextScheduleId) + |Owned(schedule, old(repository.dao.nextNoteId), old(repository.dao.nextScheduleId))|
      ensures sortOrder.value == old(sortOrder.value)
      ensures SortedNotes().Some? ==>
        multiset(SortedNotes().value) == multiset(old(AllNotes())) + multiset{AllNotes()[|AllNotes()| - 1]}
    {
      repository.GenerateNote(note, schedule);
      assert AllNotes() == old(AllNotes()) + [AllNotes()[|AllNotes()| - 1]];
    }

    /** `deleteAllNotes`: both tables emptied; the count and every list become empty. */
    method DeleteAllNotes()
      requires Valid()
      modifies repository.dao
      ensures Valid()
      ensures NoteCount() == 0 && AllNotes() == []
      ensures repository.dao.notes == [] && repository.dao.schedules == []
      ensures repository.dao.nextNoteId == old(repository.dao.nextNoteId)
      ensures repository.dao.nextScheduleId == old(repository.dao.nextScheduleId)
      ensures SortedNotes().Some? ==> SortedNotes().value == []
    {
      repository.DeleteNotes();
    }
  }

  /**
   * Switching the sort order of an observed view with no change to the list:
   * each order's list is a permutation of the same entries.
   */
  method SwitchSortOrders(vm: NoteViewModel) returns (none: seq<NoteAndSchedule>, eta: seq<NoteAndSchedule>, newest: seq<NoteAndSchedule>)
    requires vm.Valid() && vm.sortOrder.active
    modifies vm.sortOrder`value, vm.sortOrder.prefs`entries
    ensures vm.Valid() && vm.AllNotes() == old(vm.AllNotes())
    ensures none == old(vm.AllNotes())
    ensures multiset(eta) == multiset(none) && Sorted(ByEta, eta)
    ensures multiset(newest) == multiset(none) && Sorted(ByCreationDate, newest)
    ensures vm.SortedNotes() == Some(newest)
  {
    vm.SetSortOrder(Unsorted);
    none := vm.SortedNotes().value;
    vm.SetSortOrder(ByEta);
    eta := vm.SortedNotes().value;
    vm.SetSortOrder(ByCreationDate);
    newest := vm.SortedNotes().value;
  }
}
