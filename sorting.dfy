/**
 * The sort policies of the note list. Each policy is a comparator on
 * NoteAndSchedule entries; the two ordering policies apply Kotlin's stable
 * sort with that comparator and the third returns the list as it is.
 *
 * `Sort` is a stable insertion sort, the reference definition of "sort
 * stably by this comparator": `SorterIsTheStableSort` shows that any list that
 * is sorted and keeps the input order among equal keys is exactly `Sorter`'s
 * result, so the library's merge-based stable sort yields the same list.
 */
module Sorting {
  import opened Wrappers
  import opened Model

  /**
   * The policies, in the enum's declaration order. `Unsorted` stands for the
   * constant `NONE`, renamed so as not to clash with `Option.None`.
   */
  datatype SortOrder = ByEta | ByCreationDate | Unsorted

  /** Every policy, in declaration order. */
  const Constants: seq<SortOrder> := [ByEta, ByCreationDate, Unsorted]

  /** The name under which a policy is persisted. */
  function Name(o: SortOrder): string {
    match o
    case ByEta => "BY_ETA"
    case ByCreationDate => "BY_CREATION_DATE"
    case Unsorted => "NONE"
  }

  /** The enum lists every policy, under pairwise distinct names. */
  lemma ConstantsComplete(o: SortOrder)
    ensures o in Constants
    ensures forall i, j :: 0 <= i < j < |Constants| ==> Name(Constants[i]) != Name(Constants[j])
  {
    match o
    case ByEta => assert Constants[0] == o;
    case ByCreationDate => assert Constants[1] == o;
    case Unsorted => assert Constants[2] == o;
  }

  /** `compareBy(nullsLast())` on an optional date: present dates ascending, absent last. */
  predicate NullsLastLe(x: Option<int>, y: Option<int>) {
    if x.None? then y.None? else y.None? || x.value <= y.value
  }

  /** The due date of an entry, absent when it has no schedule. */
  function Eta(e: NoteAndSchedule): Option<int> {
    if e.schedule.None? then None else Some(e.schedule.value.date)
  }

  /** `a` may come before `b` under the policy: its comparator gives `compare(a, b) <= 0`. */
  predicate Precedes(o: SortOrder, a: NoteAndSchedule, b: NoteAndSchedule) {
    match o
    case ByEta => NullsLastLe(Eta(a), Eta(b))
    case ByCreationDate => a.note.creationDate >= b.note.creationDate
    case Unsorted => true
  }

  /** `a` and `b` have equal keys under the policy. */
  predicate Equiv(o: SortOrder, a: NoteAndSchedule, b: NoteAndSchedule) {
    Precedes(o, a, b) && Precedes(o, b, a)
  }

  /** Each comparator is a total preorder. */
  lemma PrecedesTotalPreorder(o: SortOrder, a: NoteAndSchedule, b: NoteAndSchedule, c: NoteAndSchedule)
    ensures Precedes(o, a, a)
    ensures Precedes(o, a, b) || Precedes(o, b, a)
    ensures Precedes(o, a, b) && Precedes(o, b, c) ==> Precedes(o, a, c)
  {
  }

  /** Adjacent entries are in comparator order. */
  predicate Sorted(o: SortOrder, s: seq<NoteAndSchedule>) {
    forall i :: 0 < i < |s| ==> Precedes(o, s[i - 1], s[i])
  }

  /** The entries of `s` whose key equals `x`'s, in their order in `s`. */
  function ClassOf(o: SortOrder, s: seq<NoteAndSchedule>, x: NoteAndSchedule): seq<NoteAndSchedule> {
    if s == [] then []
    else (if Equiv(o, s[0], x) then [s[0]] else []) + ClassOf(o, s[1..], x)
  }

  /** `t` keeps `s`'s relative order among every group of entries with equal keys. */
  ghost predicate SameClasses(o: SortOrder, s: seq<NoteAndSchedule>, t: seq<NoteAndSchedule>) {
    forall x :: ClassOf(o, t, x) == ClassOf(o, s, x)
  }

  /** Puts `x` in front of the first entry it may precede. */
  function Insert(o: SortOrder, x: NoteAndSchedule, s: seq<NoteAndSchedule>): (r: seq<NoteAndSchedule>)
    ensures multiset(r) == multiset(s) + multiset{x}
  {
    if s == [] || Precedes(o, x, s[0]) then [x] + s
    else
      assert s == [s[0]] + s[1..];
      [s[0]] + Insert(o, x, s[1..])
  }

  /** Stable insertion sort by the policy's comparator. */
  function Sort(o: SortOrder, s: seq<NoteAndSchedule>): (r: seq<NoteAndSchedule>)
    ensures multiset(r) == multiset(s)
  {
    if s == [] then []
    else
      assert s == [s[0]] + s[1..];
      Insert(o, s[0], Sort(o, s[1..]))
  }

  /** `SortOrder.sorter`: the list re-ordered by the policy, a permutation of its input. */
  function Sorter(o: SortOrder, s: seq<NoteAndSchedule>): (r: seq<NoteAndSchedule>)
    ensures multiset(r) == multiset(s) && |r| == |s|
  {
    assert |multiset(s)| == |s|;
    match o
    case Unsorted => s
    case _ =>
      var r := Sort(o, s);
      assert |multiset(r)| == |r|;
      r
  }

  lemma {:induction false} SortedPairwise(o: SortOrder, s: seq<NoteAndSchedule>, i: int, j: int)
    requires Sorted(o, s) && 0 <= i <= j < |s|
    ensures Precedes(o, s[i], s[j])
  {
    if i == j {
      PrecedesTotalPreorder(o, s[i], s[i], s[i]);
    } else {
      SortedPairwise(o, s, i, j - 1);
      PrecedesTotalPreorder(o, s[i], s[j - 1], s[j]);
    }
  }

  lemma {:induction false} InsertSorted(o: SortOrder, x: NoteAndSchedule, s: seq<NoteAndSchedule>)
    requires Sorted(o, s)
    ensures Sorted(o, Insert(o, x, s))
  {
    if s != [] && !Precedes(o, x, s[0]) {
      InsertSorted(o, x, s[1..]);
      PrecedesTotalPreorder(o, x, s[0], x);
      var t := Insert(o, x, s[1..]);
      assert t[0] == x || t[0] == s[1];
      assert Insert(o, x, s) == [s[0]] + t;
    }
  }

  /** Inserting `x` adds it at the front of its key group and leaves every other group alone. */
  lemma {:induction false} InsertClasses(o: SortOrder, x: NoteAndSchedule, s: seq<NoteAndSchedule>, z: NoteAndSchedule)
    ensures ClassOf(o, Insert(o, x, s), z) == (if Equiv(o, x, z) then [x] else []) + ClassOf(o, s, z)
  {
    var r := Insert(o, x, s);
    if s == [] || Precedes(o, x, s[0]) {
      assert r[1..] == s;
    } else {
      InsertClasses(o, x, s[1..], z);
      assert r[1..] == Insert(o, x, s[1..]);
      if Equiv(o, x, z) && Equiv(o, s[0], z) {
        PrecedesTotalPreorder(o, x, z, s[0]);
        assert false;
      }
    }
  }

  lemma {:induction false} SortSorted(o: SortOrder, s: seq<NoteAndSchedule>)
    ensures Sorted(o, Sort(o, s))
  {
    if s != [] {
      SortSorted(o, s[1..]);
      InsertSorted(o, s[0], Sort(o, s[1..]));
    }
  }

  lemma {:induction false} SortStable(o: SortOrder, s: seq<NoteAndSchedule>, z: NoteAndSchedule)
    ensures ClassOf(o, Sort(o, s), z) == ClassOf(o, s, z)
  {
    if s != [] {
      SortStable(o, s[1..], z);
      InsertClasses(o, s[0], Sort(o, s[1..]), z);
    }
  }

  /** With the all-ties comparator of NONE, the stable sort is the identity. */
  lemma {:induction false} SortUnsortedIsIdentity(s: seq<NoteAndSchedule>)
    ensures Sort(Unsorted, s) == s
  {
    if s != [] {
      SortUnsortedIsIdentity(s[1..]);
      assert [s[0]] + s[1..] == s;
    }
  }

  lemma {:induction false} ClassOfMembers(o: SortOrder, s: seq<NoteAndSchedule>, x: NoteAndSchedule, e: NoteAndSchedule)
    ensures e in ClassOf(o, s, x) <==> e in s && Equiv(o, e, x)
  {
    if s != [] {
      ClassOfMembers(o, s[1..], x, e);
      assert s == [s[0]] + s[1..];
    }
  }

  /** A sorted list is fixed by its key groups: two sorted lists with the same groups are equal. */
  lemma {:induction false} SortedUnique(o: SortOrder, t: seq<NoteAndSchedule>, u: seq<NoteAndSchedule>)
    requires Sorted(o, t) && Sorted(o, u) && SameClasses(o, t, u)
    ensures t == u
  {
    if t == [] || u == [] {
      if t != [] || u != [] {
        var a := if t != [] then t[0] else u[0];
        PrecedesTotalPreorder(o, a, a, a);
        ClassOfMembers(o, t, a, a);
        ClassOfMembers(o, u, a, a);
        assert false;
      }
    } else {
      var a, b := t[0], u[0];
      PrecedesTotalPreorder(o, a, a, a);
      PrecedesTotalPreorder(o, b, b, b);
      ClassOfMembers(o, t, a, a);
      ClassOfMembers(o, u, a, a);
      ClassOfMembers(o, t, b, b);
      ClassOfMembers(o, u, b, b);
      assert ClassOf(o, t, a) == ClassOf(o, u, a);
      assert ClassOf(o, t, b) == ClassOf(o, u, b);
      var i :| 0 <= i < |u| && u[i] == a;
      var j :| 0 <= j < |t| && t[j] == b;
      SortedPairwise(o, u, 0, i);
      SortedPairwise(o, t, 0, j);
      assert Equiv(o, b, a);
      assert ClassOf(o, t, a) == [a] + ClassOf(o, t[1..], a);
      assert ClassOf(o, u, a) == [b] + ClassOf(o, u[1..], a);
      assert ClassOf(o, t, a)[0] == a && ClassOf(o, u, a)[0] == b;
      forall x
        ensures ClassOf(o, t[1..], x) == ClassOf(o, u[1..], x)
      {
        assert ClassOf(o, t, x) == ClassOf(o, u, x);
        if Equiv(o, a, x) {
          assert ClassOf(o, t, x) == [a] + ClassOf(o, t[1..], x);
          assert ClassOf(o, u, x) == [a] + ClassOf(o, u[1..], x);
          assert ClassOf(o, t[1..], x) == ClassOf(o, t, x)[1..];
          assert ClassOf(o, u[1..], x) == ClassOf(o, u, x)[1..];
        } else {
          assert ClassOf(o, t, x) == ClassOf(o, t[1..], x);
          assert ClassOf(o, u, x) == ClassOf(o, u[1..], x);
        }
      }
      assert Sorted(o, t[1..]);
      assert Sorted(o, u[1..]);
      SortedUnique(o, t[1..], u[1..]);
      assert t == [a] + t[1..] && u == [a] + u[1..];
    }
  }

  /**
   * `Sorter(o, s)` is sorted by the policy's comparator and keeps the input order
   * among equal keys; conversely it is the only list with both properties, so any
   * stable sort with the same comparator returns it.
   */
  lemma SorterIsTheStableSort(o: SortOrder, s: seq<NoteAndSchedule>, t: seq<NoteAndSchedule>)
    ensures Sorted(o, Sorter(o, s)) && SameClasses(o, s, Sorter(o, s))
    ensures Sorted(o, t) && SameClasses(o, s, t) <==> t == Sorter(o, s)
  {
    if o == Unsorted {
      SortUnsortedIsIdentity(s);
    }
    assert Sorter(o, s) == Sort(o, s);
    SortSorted(o, s);
    forall x
      ensures ClassOf(o, Sorter(o, s), x) == ClassOf(o, s, x)
    {
      SortStable(o, s, x);
    }
    if Sorted(o, t) && SameClasses(o, s, t) {
      SortedUnique(o, t, Sorter(o, s));
    }
  }

  /** Sorting an already sorted list again changes nothing. */
  lemma SorterIdempotent(o: SortOrder, s: seq<NoteAndSchedule>)
    ensures Sorter(o, Sorter(o, s)) == Sorter(o, s)
  {
    var r := Sorter(o, s);
    SorterIsTheStableSort(o, s, r);
    SorterIsTheStableSort(o, r, r);
  }

  /** BY_CREATION_DATE: creation dates never increase along the result. */
  lemma ByCreationDateNewestFirst(s: seq<NoteAndSchedule>)
    ensures var r := Sorter(ByCreationDate, s);
      forall i, j :: 0 <= i < j < |r| ==> r[i].note.creationDate >= r[j].note.creationDate
  {
    var r := Sorter(ByCreationDate, s);
    SorterIsTheStableSort(ByCreationDate, s, r);
    forall i, j | 0 <= i < j < |r|
      ensures r[i].note.creationDate >= r[j].note.creationDate
    {
      SortedPairwise(ByCreationDate, r, i, j);
    }
  }

  /**
   * BY_ETA: every scheduled entry comes before every unscheduled one, and the
   * due dates of scheduled entries never decrease along the result.
   */
  lemma ByEtaScheduledFirst(s: seq<NoteAndSchedule>)
    ensures var r := Sorter(ByEta, s);
      forall i, j :: 0 <= i < j < |r| && r[i].schedule.None? ==> r[j].schedule.None?
    ensures var r := Sorter(ByEta, s);
      forall i, j :: 0 <= i < j < |r| && r[i].schedule.Some? && r[j].schedule.Some? ==>
        r[i].schedule.value.date <= r[j].schedule.value.date
  {
    var r := Sorter(ByEta, s);
    SorterIsTheStableSort(ByEta, s, r);
    forall i, j | 0 <= i < j < |r|
      ensures Precedes(ByEta, r[i], r[j])
    {
      SortedPairwise(ByEta, r, i, j);
    }
  }

  /** The entries without a schedule, in their order in `s`. */
  function Unscheduled(s: seq<NoteAndSchedule>): (r: seq<NoteAndSchedule>)
    ensures forall e :: e in r <==> e in s && e.schedule.None?
  {
    if s == [] then []
    else (if s[0].schedule.None? then [s[0]] else []) + Unscheduled(s[1..])
  }

  /** BY_ETA is stable: unscheduled notes keep their relative order, at the end. */
  lemma ByEtaKeepsUnscheduledOrder(s: seq<NoteAndSchedule>)
    ensures Unscheduled(Sorter(ByEta, s)) == Unscheduled(s)
  {
    var x := NoteAndSchedule(Note(0, "", "", Untyped, InProgress, 0), None);
    var r := Sorter(ByEta, s);
    SorterIsTheStableSort(ByEta, s, r);
    assert ClassOf(ByEta, r, x) == ClassOf(ByEta, s, x);
    UnscheduledIsClass(r, x);
    UnscheduledIsClass(s, x);
  }

  lemma {:induction false} UnscheduledIsClass(s: seq<NoteAndSchedule>, x: NoteAndSchedule)
    requires x.schedule.None?
    ensures ClassOf(ByEta, s, x) == Unscheduled(s)
  {
    if s != [] {
      UnscheduledIsClass(s[1..], x);
    }
  }
}
