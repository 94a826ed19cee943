# Notes app reactive core, modelled in Dafny

This project models the data layer of a small note-taking app. It covers three parts:

- **Sort policy** (`Sorting`, `ViewModel`). The note list can be ordered three ways. `BY_ETA` sorts ascending by schedule due date and puts unscheduled notes last. `BY_CREATION_DATE` sorts descending by creation date. `NONE` keeps the list as it is. The view model's sorted list is the current order's sorter applied to the current full list.
- **Preference-backed observable** (`Lifecycle`). An enum value is stored under one key of a key/value preference store, by its constant name. It is cached for observers. The cached value is reloaded when the observable becomes active. After that, it changes only when the store notifies a registered listener of a change to that key.
- **Note store** (`Repository`). There are two tables, notes and schedules. Each has an auto-increment id counter. `generateNote` runs as one transaction: it inserts a note and, optionally, a schedule owned by that note. Delete-all empties the note table, then the schedule table.

Files:

- `model.dfy`: the entities (`Note`, `Schedule`, `NoteAndSchedule`, the type and state tags) and `Option`. Timestamps are `int` epoch milliseconds.
- `sorting.dfy`: the three comparators, a stable insertion sort used as the reference sorter, and the properties of the sorters.
- `lifecycle.dfy`: the preference store and the enum-valued observable, as classes.
- `repository.dfy`: the DAO tables and the repository, as classes. It also has the join that `findAll` yields and the ten-note seeding of a new database.
- `viewmodel.dfy`: the view model. It holds the sort-order observable, the derived sorted list and the three commands.

Kotlin's `sortedWith` and `sortedByDescending` are stable sorts. `Sorting.Sort` is a stable insertion sort. `Sorting.SorterIsTheStableSort` proves that a list is sorted by the comparator and keeps input order among equal keys exactly when it equals `Sorter`'s result. So any stable sort with the same comparator, including the library's, returns the same list as the model.

Two behaviours of the code shape the observable's model:

- Before its first activation, the observable holds no value. `LiveData()` is built without an initial value, so the model's cached value is `None` until `onActive` loads it.
- A stored name that matches no enum constant is not replaced by the default. `first` throws. The model reports this as `UnknownName`, and the step that hit it changes nothing.

## Model

| member | source | states |
|---|---|---|
| Sorting.ConstantsComplete | app/src/main/java/ch/heigvd/iict/daa/labo4/viewmodel/NoteViewModel.kt:83-91 | every sort order is one of the three enum constants, and their persisted names are pairwise distinct |
| Sorting.PrecedesTotalPreorder | app/src/main/java/ch/heigvd/iict/daa/labo4/viewmodel/NoteViewModel.kt:84-90 | each policy's comparator (nulls-last ascending ETA, descending creation date, all ties for NONE) is reflexive, total and transitive |
| Sorting.Sort | app/src/main/java/ch/heigvd/iict/daa/labo4/viewmodel/NoteViewModel.kt:84-89 | the stable sort by the policy's comparator returns a permutation of its input (same multiset) |
| Sorting.Sorter | app/src/main/java/ch/heigvd/iict/daa/labo4/viewmodel/NoteViewModel.kt:83-91 | every sorter returns a permutation of its input: same length, same multiset of entries |
| Sorting.SortSorted | app/src/main/java/ch/heigvd/iict/daa/labo4/viewmodel/NoteViewModel.kt:84-89 | the sort's output is ordered by the comparator |
| Sorting.SortStable | app/src/main/java/ch/heigvd/iict/daa/labo4/viewmodel/NoteViewModel.kt:84-89 | the sort keeps the input order among entries with equal keys |
| Sorting.SortUnsortedIsIdentity | app/src/main/java/ch/heigvd/iict/daa/labo4/viewmodel/NoteViewModel.kt:90 | the NONE sorter, which returns its input, is the stable sort under a comparator where every pair ties |
| Sorting.SortedUnique | app/src/main/java/ch/heigvd/iict/daa/labo4/viewmodel/NoteViewModel.kt:84-89 | two lists that are both sorted and have the same equal-key groups in the same order are equal |
| Sorting.SorterIsTheStableSort | app/src/main/java/ch/heigvd/iict/daa/labo4/viewmodel/NoteViewModel.kt:83-91 | a list is sorted by the policy and keeps the input's order among equal keys if and only if it is the sorter's result |
| Sorting.SorterIdempotent | app/src/main/java/ch/heigvd/iict/daa/labo4/viewmodel/NoteViewModel.kt:84-89 | applying a sorter twice gives the same list as applying it once |
| Sorting.ByCreationDateNewestFirst | app/src/main/java/ch/heigvd/iict/daa/labo4/viewmodel/NoteViewModel.kt:87-89 | BY_CREATION_DATE output has non-increasing creation dates |
| Sorting.ByEtaScheduledFirst | app/src/main/java/ch/heigvd/iict/daa/labo4/viewmodel/NoteViewModel.kt:84-86 | BY_ETA puts every scheduled entry before every unscheduled one, with non-decreasing due dates among scheduled entries |
| Sorting.ByEtaKeepsUnscheduledOrder | app/src/main/java/ch/heigvd/iict/daa/labo4/viewmodel/NoteViewModel.kt:84-86 | BY_ETA keeps the unscheduled notes in their input order |
| Lifecycle.SharedPreferences.PutString | app/src/main/java/ch/heigvd/iict/daa/labo4/lifecycle/SharedPreferencesLiveData.kt:85-88 | a put changes the entry under its own key and no other entry |
| Lifecycle.FirstNamed | app/src/main/java/ch/heigvd/iict/daa/labo4/lifecycle/SharedPreferencesLiveData.kt:83 | the lookup by name returns a constant with that name, and fails exactly when no constant has that name |
| Lifecycle.NameRoundTrip | app/src/main/java/ch/heigvd/iict/daa/labo4/lifecycle/SharedPreferencesLiveData.kt:81-88 | with unique names, looking up a constant's name returns that constant |
| Lifecycle.EnumPreferenceLiveData.constructor | app/src/main/java/ch/heigvd/iict/daa/labo4/lifecycle/SharedPreferencesLiveData.kt:73-77 | a new observable is inactive, has no value yet and has no listener registered |
| Lifecycle.EnumPreferenceLiveData.GetValueFromPreferences | app/src/main/java/ch/heigvd/iict/daa/labo4/lifecycle/SharedPreferencesLiveData.kt:81-83 | an absent key reads as the default value; a stored name reads as the constant with that name; a read fails exactly when the key holds a name that matches no constant |
| Lifecycle.EnumPreferenceLiveData.StoredRoundTrip | app/src/main/java/ch/heigvd/iict/daa/labo4/lifecycle/SharedPreferencesLiveData.kt:81-88 | when the key holds a value's name, reading gives back that value |
| Lifecycle.EnumPreferenceLiveData.OnActive | app/src/main/java/ch/heigvd/iict/daa/labo4/lifecycle/SharedPreferencesLiveData.kt:39-43 | activation reloads the cached value from the store and then registers the listener; an unknown stored name stops it before either step |
| Lifecycle.EnumPreferenceLiveData.OnInactive | app/src/main/java/ch/heigvd/iict/daa/labo4/lifecycle/SharedPreferencesLiveData.kt:45-48 | deactivation unregisters the listener and keeps the cached value; the listener stays registered exactly while the observable is active |
| Lifecycle.EnumPreferenceLiveData.SetValue | app/src/main/java/ch/heigvd/iict/daa/labo4/lifecycle/SharedPreferencesLiveData.kt:50-52 | setting writes the value's name under the key, as a map update that changes no other key; the cached value is unchanged; reading back yields the value |
| Lifecycle.EnumPreferenceLiveData.NotifyChanged | app/src/main/java/ch/heigvd/iict/daa/labo4/lifecycle/SharedPreferencesLiveData.kt:54-58 | a change reloads the cached value only when the listener is registered and the changed key is this observable's key; otherwise nothing changes |
| Lifecycle.WriteWhileInactiveThenActivate | app/src/main/java/ch/heigvd/iict/daa/labo4/lifecycle/SharedPreferencesLiveData.kt:39-58 | a write while inactive changes only its key in the store, delivers no notification and leaves the cached value as it was; the next activation registers the listener and loads the written value |
| Repository.ScheduleOf | app/src/main/java/ch/heigvd/iict/daa/labo4/repository/NoteRepository.kt:76-78 | a note gets a schedule from the table owned by that note, and none only when no schedule is owned by it |
| Repository.Join | app/src/main/java/ch/heigvd/iict/daa/labo4/repository/NoteRepository.kt:76-78 | the join has one entry per note row, in row order, each paired with that note's schedule |
| Repository.JoinAppend | app/src/main/java/ch/heigvd/iict/daa/labo4/repository/NoteRepository.kt:124-134 | appending a note with a fresh id, plus optionally a schedule it owns, appends exactly one joined entry carrying that schedule and leaves earlier entries unchanged |
| Repository.NoteDao.constructor | app/src/main/java/ch/heigvd/iict/daa/labo4/NotesDatabase.kt:23-30 | a new database has empty tables and both id counters at 1 |
| Repository.NoteDao.FindAll | app/src/main/java/ch/heigvd/iict/daa/labo4/repository/NoteRepository.kt:76-78 | findAll yields exactly one entry per note row, in row order, with a schedule owned by that note, and none only when the table holds no schedule for it |
| Repository.NoteDao.Count | app/src/main/java/ch/heigvd/iict/daa/labo4/repository/NoteRepository.kt:85-86 | count equals the number of entries findAll yields, one per note |
| Repository.NoteDao.InsertNote | app/src/main/java/ch/heigvd/iict/daa/labo4/repository/NoteRepository.kt:94-95 | inserting a note appends it under the next id, returns that id and advances the counter |
| Repository.NoteDao.InsertSchedule | app/src/main/java/ch/heigvd/iict/daa/labo4/repository/NoteRepository.kt:103-104 | inserting a schedule appends it under the next schedule id, returns that id and advances the counter |
| Repository.NoteDao.DeleteNotes | app/src/main/java/ch/heigvd/iict/daa/labo4/repository/NoteRepository.kt:109-110 | deleting notes empties the note table and leaves the schedule table untouched, so its schedules may be orphaned |
| Repository.NoteDao.DeleteSchedules | app/src/main/java/ch/heigvd/iict/daa/labo4/repository/NoteRepository.kt:116-117 | deleting schedules empties the schedule table and leaves the note table untouched |
| Repository.NoteDao.GenerateNote | app/src/main/java/ch/heigvd/iict/daa/labo4/repository/NoteRepository.kt:124-134 | generation appends exactly one note with the next note id and zero or one schedule owned by that id; both id counters advance by the number of rows inserted; the returned id is the note's; the join gains exactly that one entry |
| Repository.NoteRepository.Notes | app/src/main/java/ch/heigvd/iict/daa/labo4/repository/NoteRepository.kt:33 | the observed list has one entry per note row, in row order, each with a schedule that note owns, or none exactly when the schedule table holds none for it |
| Repository.NoteRepository.NoteCount | app/src/main/java/ch/heigvd/iict/daa/labo4/repository/NoteRepository.kt:38 | the observed count is the length of the observed list |
| Repository.NoteRepository.GenerateNote | app/src/main/java/ch/heigvd/iict/daa/labo4/repository/NoteRepository.kt:43-47 | the note table gains the generated note with the next id and the schedule table gains its schedule, owned by it, when one was drawn; both counters advance by the rows inserted; the count grows by one; the list gains one entry at the end, with that note and schedule |
| Repository.NoteRepository.DeleteNotes | app/src/main/java/ch/heigvd/iict/daa/labo4/repository/NoteRepository.kt:52-57 | deleting notes then schedules leaves both tables, the list and the count empty, and keeps the id counters (ids are never reused) |
| Repository.PopulateDatabase | app/src/main/java/ch/heigvd/iict/daa/labo4/NotesDatabase.kt:67-73 | ten generations on a new database give ten notes with consecutive ids and at most ten schedules |
| ViewModel.NoteViewModel.constructor | app/src/main/java/ch/heigvd/iict/daa/labo4/viewmodel/NoteViewModel.kt:42-46 | the sort order is stored under "sort_order" with default NONE, and its observable starts inactive and unset |
| ViewModel.NoteViewModel.AllNotes | app/src/main/java/ch/heigvd/iict/daa/labo4/viewmodel/NoteViewModel.kt:49 | the view model's list is the repository's: one entry per note row, in row order, each with a schedule that note owns, or none exactly when none is stored for it |
| ViewModel.NoteViewModel.NoteCount | app/src/main/java/ch/heigvd/iict/daa/labo4/viewmodel/NoteViewModel.kt:52 | the observed count is the length of the observed list |
| ViewModel.NoteViewModel.SortedNotes | app/src/main/java/ch/heigvd/iict/daa/labo4/viewmodel/NoteViewModel.kt:55 | the sorted list exists exactly when the sort order has a value; it is a permutation of the full list, sorted by that order, and keeps the full list's order among equal keys |
| ViewModel.NoteViewModel.SetSortOrder | app/src/main/java/ch/heigvd/iict/daa/labo4/viewmodel/NoteViewModel.kt:62-64 | the order's name is written under its key; listeners and activity are unchanged; while observed, the cached order becomes the new order and the sorted list becomes its sorter applied to the current list; while not observed, the cached order is unchanged |
| ViewModel.NoteViewModel.GenerateNote | app/src/main/java/ch/heigvd/iict/daa/labo4/viewmodel/NoteViewModel.kt:69-71 | the note table gains the generated note with the next id and the schedule table gains its schedule, owned by it, when one was drawn; both id counters advance by the rows inserted; the count grows by one, earlier entries are kept, the new last entry holds that note and schedule; the sort order is unchanged, and the sorted list holds the old entries plus the new one |
| ViewModel.NoteViewModel.DeleteAllNotes | app/src/main/java/ch/heigvd/iict/daa/labo4/viewmodel/NoteViewModel.kt:76-78 | both the note and the schedule tables are emptied, and both id counters are kept; the count is zero and the full and sorted lists are empty |
| ViewModel.SwitchSortOrders | app/src/main/java/ch/heigvd/iict/daa/labo4/viewmodel/NoteViewModel.kt:55-64 | switching NONE, then BY_ETA, then BY_CREATION_DATE without a list change gives the list itself and then two sorted permutations of it |

## Left out

- Coroutines. `applicationScope.launch` is not modelled. Each repository command is one sequential step that runs to completion, so interleavings and the dispatch thread are not modelled.
- Room internals. SQL execution and the `@Transaction` mechanism are not modelled: each DAO operation is an atomic update of in-memory tables. `LiveData` and `switchMap` delivery are not modelled either: the observed list, count and sorted list are functions of the current state.
- Repository.ScheduleOf: when several schedules share an owner, the model attaches the first one. Room's choice in that case is not shown, and `NoteDao.OwnersAssigned` proves the case never arises through `generateNote` and the deletes.
- Random generation. `Note.generateRandomNote` and `generateRandomSchedule` are not part of this model. Their outputs are parameters: a `Note` and an `Option<Schedule>`. The id on the generated note and the drawn schedule's id are ignored because the tables assign them.
- `SharedPreferences.apply()` persists to disk asynchronously and dispatches listeners on the main thread. Neither is modelled. The store is an in-memory map, and the change notification is the explicit step `NotifyChanged`.
- `getString(key, defaultValue.name)!!` (SharedPreferencesLiveData.kt:81) is given a non-null default, and storing null removes a key, so the `!!` never fails. The model's `GetString` is total for that reason.
- An unknown stored name makes `first` throw, which ends the app. The model reports it as `UnknownName` and makes no change in that step. It does not model a step after the crash.
- Lifecycle.EnumPreferenceLiveData.OnActive and OnInactive: LiveData calls these only when the observable switches between inactive and active. The model states this as the precondition `!active` / `active` and does not model observer counting.
- Ids are Kotlin `Long` values. Dates are `Calendar` objects, stored as `Long` epoch milliseconds (CalendarConverter.kt:20-28) and ordered by that instant by `compareTo`. Both are modelled as unbounded integers. 64-bit overflow of the auto-increment counters is not modelled.
- The UI is not modelled. That covers the fragments, the activity, row view types, icons and tints, and the "late" rule, which reads the wall clock.
- App bootstrap is not modelled: the database singleton, the application classes, the view-model factory and the extension helpers. `CalendarConverter` is not modelled either. Timestamps are plain integers.
