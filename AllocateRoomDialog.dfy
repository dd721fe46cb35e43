/** The "Allocate Room" dialog (src/components/room-management/allocate-room-dialog.tsx):
    a selection of pending students bounded by the room's free beds. */
module AllocateRoomDialog {
  import Text
  import Seqs
  import opened Wrappers
  import opened RoomManagement

  /** `"Pending"`, `"Allocated"`, `"Cleared"`. */
  datatype StudentStatus = PendingAllocation | Allocated | Cleared

  datatype Student = Student(
    id: string,
    name: string,
    registrationNumber: string,
    course: string,
    year: int,
    status: StudentStatus)

  /** The dialog's `mockStudents`. */
  const MockStudents: seq<Student> := [
    Student("1", "John Doe", "NKU/2024/001", "Computer Science", 2, PendingAllocation),
    Student("2", "Jane Smith", "NKU/2024/002", "Business Administration", 1, PendingAllocation),
    Student("3", "Mike Johnson", "NKU/2024/003", "Engineering", 3, PendingAllocation),
    Student("4", "Sarah Williams", "NKU/2024/004", "Medicine", 2, PendingAllocation)]

  /** `availableSpace`: free beds of the room, 0 with no room. For any room
      the page can hold (generated, or added through the form) it lies
      between 0 and the capacity; an over-full room gives a negative space. */
  function AvailableSpace(room: Option<Room>): (space: int)
    ensures room.None? ==> space == 0
    ensures room.Some? && 0 <= room.value.occupied <= room.value.capacity ==>
      0 <= space <= room.value.capacity && (space == 0 <==> room.value.occupied == room.value.capacity)
    ensures room.Some? && room.value.occupied > room.value.capacity ==> space < 0
  {
    if room.Some? then room.value.capacity - room.value.occupied else 0
  }

  /** A student is offered when still Pending and the term occurs, ignoring
      case, in the name or the registration number. */
  predicate Offered(student: Student, term: string)
  {
    && student.status == PendingAllocation
    && (|| Text.Contains(Text.ToLower(student.name), Text.ToLower(term))
        || Text.Contains(Text.ToLower(student.registrationNumber), Text.ToLower(term)))
  }

  /** `filteredStudents`. */
  function FilteredStudents(students: seq<Student>, term: string): (r: seq<Student>)
    ensures Seqs.IsSubsequence(r, students)
    ensures forall s :: s in r <==> s in students && Offered(s, term)
    ensures forall s :: multiset(r)[s] == if Offered(s, term) then multiset(students)[s] else 0
    ensures forall s :: s in r ==> s.status == PendingAllocation
  {
    Seqs.Filter(students, s => Offered(s, term))
  }

  /** With an empty term every pending student is offered. */
  lemma EmptyTermOffersAllPending(students: seq<Student>)
    ensures forall s :: s in FilteredStudents(students, "") <==> s in students && s.status == PendingAllocation
  {
    forall s | s in students && s.status == PendingAllocation
      ensures Offered(s, "")
    {
      assert Text.ToLower("") == "";
      Text.ContainsEmpty(Text.ToLower(s.name));
    }
  }

  function StudentIds(students: seq<Student>): (ids: seq<string>)
    ensures |ids| == |students|
  {
    seq(|students|, k requires 0 <= k < |students| => students[k].id)
  }

  /** `array.slice(0, end)`: a negative `end` counts back from the end. */
  function SliceTo<T>(s: seq<T>, end: int): (r: seq<T>)
  {
    var e := if end < 0 then (if |s| + end < 0 then 0 else |s| + end)
             else (if end < |s| then end else |s|);
    s[..e]
  }

  /** The header box's select-all as written: `filteredStudents.slice(0, availableSpace)`. */
  function SelectAllAsWritten(filtered: seq<Student>, space: int): seq<string>
  {
    StudentIds(SliceTo(filtered, space))
  }

  /** With a room holding more occupants than beds (occupied 3, capacity 2) and
      four students on offer, the written select-all picks three students for a
      room without a free bed, while ticking one student is refused. */
  lemma SelectAllOverfillsOverfullRoom()
    ensures AvailableSpace(Some(OverfullRoom)) == -1
    ensures |SelectAllAsWritten(MockStudents, AvailableSpace(Some(OverfullRoom)))| == 3
  {
  }

  const OverfullRoom := Room("9", "A109", "A", "1", Double, 2, 3, 600000, [], Full, [], [], [])

  /** Select-all as intended: the first `availableSpace` students on offer, or
      all of them if there are fewer, and none when there is no free bed. */
  function SelectAll(filtered: seq<Student>, space: int): (ids: seq<string>)
    ensures |ids| == (if space <= 0 then 0 else if space < |filtered| then space else |filtered|)
    ensures |ids| <= |filtered| && (space >= 0 ==> |ids| <= space)
    ensures forall k :: 0 <= k < |ids| ==> ids[k] == filtered[k].id
  {
    StudentIds(filtered[..if space <= 0 then 0 else if space < |filtered| then space else |filtered|])
  }

  /** The header box's `checked` as written: the selection is as long as the
      list on offer, and that list is not empty. */
  predicate LengthTestChecked(selected: seq<string>, filtered: seq<Student>)
  {
    |selected| == |filtered| && |filtered| > 0
  }

  /** The length test reads "every student on offer is selected" whenever the
      selection holds only offered ids, each once, and the offered students
      have different ids. */
  lemma HeaderCheckedWhenSelectionCurrent(selected: seq<string>, filtered: seq<Student>)
    ensures Seqs.Distinct(selected) && Seqs.Distinct(StudentIds(filtered))
      && (forall id :: id in selected ==> id in StudentIds(filtered))
      ==> (LengthTestChecked(selected, filtered) <==>
           filtered != [] && forall s :: s in filtered ==> s.id in selected)
  {
    var ids := StudentIds(filtered);
    if Seqs.Distinct(selected) && Seqs.Distinct(ids) && forall id :: id in selected ==> id in ids {
      Seqs.SameLengthIffCovers(selected, ids);
      if forall id :: id in ids ==> id in selected {
        forall s | s in filtered
          ensures s.id in selected
        {
          var k :| 0 <= k < |filtered| && filtered[k] == s;
          assert ids[k] == s.id;
        }
      }
      if forall s :: s in filtered ==> s.id in selected {
        forall id | id in ids
          ensures id in selected
        {
          var k :| 0 <= k < |ids| && ids[k] == id;
          assert filtered[k] in filtered;
        }
      }
    }
  }

  /** Where the room is not over-full the two agree. */
  lemma SelectAllAgrees(filtered: seq<Student>, space: int)
    requires space >= 0
    ensures SelectAllAsWritten(filtered, space) == SelectAll(filtered, space)
  {
  }

  /** The dialog's state. `room` and `open` are props: the parent may show
      the dialog for another room while it stays mounted, and nothing resets
      the selection when that happens or when the dialog is closed. */
  class AllocateDialog {
    var room: Option<Room>
    const students: seq<Student>
    var open: bool
    var searchTerm: string
    var selectedStudents: seq<string>
    var isLoading: bool

    /** The free beds the selection must fit in (a negative space admits nobody). */
    function Bound(): nat
      reads this
    {
      if AvailableSpace(room) < 0 then 0 else AvailableSpace(room)
    }

    /** The selection fits the room on display. Every selection made while
        this room is shown keeps it; a change of room can break it. */
    ghost predicate Valid()
      reads this
    {
      |selectedStudents| <= Bound()
    }

    function Filtered(): seq<Student>
      reads this
    {
      FilteredStudents(students, searchTerm)
    }

    /** The header box, as written: checked when the selection is as long as
        the list on offer. With a current selection this means every student
        on offer is selected. */
    function HeaderChecked(): (checked: bool)
      reads this
      ensures Seqs.Distinct(selectedStudents) && Seqs.Distinct(StudentIds(Filtered()))
        && (forall id :: id in selectedStudents ==> id in StudentIds(Filtered()))
        ==> (checked <==> Filtered() != [] && forall s :: s in Filtered() ==> s.id in selectedStudents)
    {
      HeaderCheckedWhenSelectionCurrent(selectedStudents, Filtered());
      LengthTestChecked(selectedStudents, Filtered())
    }

    /** The Allocate button: disabled with an empty selection or while loading.
        When it is enabled and the selection was made for this room, the
        selection fits a room with at least one free bed. */
    function AllocateEnabled(): (enabled: bool)
      reads this
      ensures enabled && Valid() ==> 0 < |selectedStudents| <= AvailableSpace(room)
    {
      |selectedStudents| != 0 && !isLoading
    }

    constructor (room: Option<Room>, open: bool)
      ensures Valid()
      ensures this.room == room && this.open == open && students == MockStudents
      ensures searchTerm == "" && selectedStudents == [] && !isLoading
    {
      this.room := room;
      this.students := MockStudents;
      this.open := open;
      searchTerm := "";
      selectedStudents := [];
      isLoading := false;
    }

    /** The parent passes another `room` prop: only the room changes, the
        selection made for the previous room is kept. */
    method SetRoom(r: Option<Room>)
      modifies this`room
      ensures room == r
    {
      room := r;
    }

    /** Cancel and the dialog's own close both call `onOpenChange(false)`:
        only the open flag changes, the selection is kept. */
    method Close()
      modifies this`open
      ensures !open
    {
      open := false;
    }

    method SetSearchTerm(value: string)
      modifies this`searchTerm
      ensures searchTerm == value
    {
      searchTerm := value;
    }

    /** `handleSelectStudent`: ticking is refused (with a destructive toast,
        `refused`) once the selection has reached the free space; unticking
        removes the id. A tick that goes through leaves the selection within
        the free space, whatever room it was made for before. */
    method SelectStudent(studentId: string, checked: bool) returns (refused: bool)
      modifies this`selectedStudents
      ensures refused <==> checked && |old(selectedStudents)| >= AvailableSpace(room)
      ensures refused ==> selectedStudents == old(selectedStudents)
      ensures checked && !refused ==>
        selectedStudents == old(selectedStudents) + [studentId] && |selectedStudents| <= AvailableSpace(room)
      ensures !checked ==> selectedStudents == Seqs.Remove(old(selectedStudents), studentId)
      ensures old(Valid()) ==> Valid()
    {
      refused := false;
      if checked {
        if |selectedStudents| >= AvailableSpace(room) {
          refused := true;
          return;
        }
        selectedStudents := selectedStudents + [studentId];
      } else {
        selectedStudents := Seqs.Remove(selectedStudents, studentId);
      }
    }

    /** The header box: select the first students on offer up to the free
        space, or clear the selection. Either way the selection then fits. */
    method HeaderCheckedChange(checked: bool)
      modifies this`selectedStudents
      ensures Valid()
      ensures selectedStudents == if checked then SelectAll(Filtered(), AvailableSpace(room)) else []
    {
      if checked {
        selectedStudents := SelectAll(FilteredStudents(students, searchTerm), AvailableSpace(room));
      } else {
        selectedStudents := [];
      }
    }

    /** `handleAllocate`, with `succeeds` telling whether the awaited
        `onAllocate` resolves. Returns the ids passed to `onAllocate`, or None
        when it is not called. Whatever selection is kept is passed on: only a
        selection made for the room on display is known to fit it. */
    method Allocate(succeeds: bool) returns (passed: Option<seq<string>>)
      modifies this`selectedStudents, this`isLoading, this`open
      ensures old(selectedStudents) == [] ==>
        passed == None && selectedStudents == [] &&
        isLoading == old(isLoading) && open == old(open)
      ensures old(selectedStudents) != [] ==>
        && passed == Some(old(selectedStudents))
        && !isLoading
        && (succeeds ==> selectedStudents == [] && !open)
        && (!succeeds ==> selectedStudents == old(selectedStudents) && open == old(open))
      ensures old(AllocateEnabled()) ==> passed == Some(old(selectedStudents))
      ensures passed.None? ==> !old(AllocateEnabled())
      ensures old(Valid()) ==> Valid()
      ensures old(Valid()) && room.Some? && room.value.occupied >= room.value.capacity ==> passed == None
    {
      if |selectedStudents| == 0 {
        passed := None;
        return;
      }
      isLoading := true;
      passed := Some(selectedStudents);
      if succeeds {
        selectedStudents := [];
        open := false;
      }
      isLoading := false;
    }

    /** `handleAllocate` as evidently intended: a selection that no longer
        fits the room on display (it was made for another room) is refused,
        as an over-long tick is, so `onAllocate` never receives more students
        than the room has free beds. On a selection made for this room it
        behaves as `Allocate`. */
    method AllocateWithinSpace(succeeds: bool) returns (passed: Option<seq<string>>, refused: bool)
      modifies this`selectedStudents, this`isLoading, this`open
      ensures passed.Some? ==> 0 < |passed.value| <= AvailableSpace(room)
      ensures refused <==> old(selectedStudents) != [] && |old(selectedStudents)| > AvailableSpace(room)
      ensures old(Valid()) ==> !refused
      ensures refused ==>
        passed == None && selectedStudents == old(selectedStudents) &&
        isLoading == old(isLoading) && open == old(open)
      ensures !refused && old(selectedStudents) == [] ==>
        passed == None && selectedStudents == [] &&
        isLoading == old(isLoading) && open == old(open)
      ensures !refused && old(selectedStudents) != [] ==>
        && passed == Some(old(selectedStudents))
        && !isLoading
        && (succeeds ==> selectedStudents == [] && !open)
        && (!succeeds ==> selectedStudents == old(selectedStudents) && open == old(open))
    {
      refused := selectedStudents != [] && |selectedStudents| > AvailableSpace(room);
      if refused {
        passed := None;
        return;
      }
      passed := Allocate(succeeds);
    }
  }

  /** A room with two free beds and a full room of the same size. */
  const RoomWithTwoBeds := Room("10", "A110", "A", "1", Double, 2, 0, 600000, [], Available, [], [], [])
  const FullRoom := Room("11", "A111", "A", "1", Double, 2, 2, 600000, [], Full, [], [], [])

  /** As written: two students ticked for a room with two free beds, the
      dialog cancelled, then shown for a full room. The kept selection goes
      to `onAllocate` for the full room. */
  method StaleSelectionReachesFullRoom() returns (passed: Option<seq<string>>)
    ensures passed == Some(["1", "2"])
    ensures |passed.value| > AvailableSpace(Some(FullRoom))
  {
    var dialog := new AllocateDialog(Some(RoomWithTwoBeds), true);
    assert AvailableSpace(Some(RoomWithTwoBeds)) == 2;
    var first := dialog.SelectStudent("1", true);
    var second := dialog.SelectStudent("2", true);
    assert dialog.selectedStudents == ["1", "2"];
    dialog.Close();
    dialog.SetRoom(Some(FullRoom));
    passed := dialog.Allocate(true);
  }
}
