/** The clearance list (src/pages/clearance-management/index.tsx): clearance
    requests with named checklist items, their search, and the conversion of
    a request into the four-section record the clearance modal works on. */
module ClearanceManagement {
  import Text
  import Seqs
  import opened Wrappers
  import Modal = StudentClearanceModal

  /** A checklist item's `"cleared" | "pending" | "failed"`. */
  datatype ItemStatus = Cleared | Pending | Failed

  datatype ClearanceItem = ClearanceItem(name: string, status: ItemStatus, description: Option<string>)

  /** `"Semester End" | "Final" | "Transfer"`. */
  datatype ClearanceType = SemesterEnd | Final | Transfer

  /** The request's own `"Pending" | "In Progress" | "Cleared" | "Rejected"`. */
  datatype RequestStatus = RequestPending | RequestInProgress | RequestCleared | RequestRejected

  /** `items: { fees, room, library, property }`. */
  datatype ItemFlags = ItemFlags(fees: bool, room: bool, library: bool, property: bool)

  datatype Clearance = Clearance(
    id: string,
    studentName: string,
    registrationNumber: string,
    roomNumber: string,
    clearanceType: ClearanceType,
    items: ItemFlags,
    status: RequestStatus,
    submittedDate: string,
    clearanceItems: seq<ClearanceItem>,
    department: Option<string>,
    photoUrl: Option<string>)

  const DefaultPhotoUrl := "https://images.app.goo.gl/gK7qGEQfcGnVWwQd8"

  /** `mapClearanceStatus`: cleared, pending and failed become approved,
      pending and rejected; nothing becomes more-info. */
  function MapClearanceStatus(s: ItemStatus): (r: Modal.ClearanceStatus)
    ensures r != Modal.MoreInfo
    ensures r == Modal.Approved <==> s == Cleared
    ensures r == Modal.Rejected <==> s == Failed
  {
    match s
    case Cleared => Modal.Approved
    case Pending => Modal.Pending
    case Failed => Modal.Rejected
  }

  /** Different item statuses map to different section statuses. */
  lemma MapClearanceStatusInjective(s: ItemStatus, t: ItemStatus)
    ensures MapClearanceStatus(s) == MapClearanceStatus(t) ==> s == t
  {
  }

  /** The `find` predicate each section uses on an item's name. */
  predicate SectionMatches(section: Modal.Section, name: string)
  {
    match section
    case HostelAdmin => name == "Room Condition" || Text.Contains(name, "Room")
    case RoomInspection => name == "Property Damage" || Text.Contains(name, "Property")
    case KeyProperty => Text.Contains(name, "Library") || Text.Contains(name, "Books")
    case Finance => name == "Outstanding Fees" || Text.Contains(name, "Fees")
  }

  /** The exact-name test in three of the predicates adds nothing: each
      predicate is a substring test. */
  lemma SectionMatchesIsSubstring(name: string)
    ensures SectionMatches(Modal.HostelAdmin, name) <==> Text.Contains(name, "Room")
    ensures SectionMatches(Modal.RoomInspection, name) <==> Text.Contains(name, "Property")
    ensures SectionMatches(Modal.Finance, name) <==> Text.Contains(name, "Fees")
  {
    if name == "Room Condition" {
      assert Text.OccursAt(name, "Room", 0);
      Text.ContainsAt(name, "Room", 0);
    }
    if name == "Property Damage" {
      assert Text.OccursAt(name, "Property", 0);
      Text.ContainsAt(name, "Property", 0);
    }
    if name == "Outstanding Fees" {
      assert Text.OccursAt(name, "Fees", 12);
      Text.ContainsAt(name, "Fees", 12);
    }
  }

  function ItemMatcher(section: Modal.Section): ClearanceItem -> bool
  {
    (item: ClearanceItem) => SectionMatches(section, item.name)
  }

  /** `items.find(...)?.status || "pending"`. */
  function SectionItemStatus(items: seq<ClearanceItem>, section: Modal.Section): ItemStatus
  {
    match Seqs.Find(items, ItemMatcher(section))
    case Some(item) => item.status
    case None => Pending
  }

  /** The four `clearanceStatus` entries of `mapToStudentData`: each section
      takes the status of the first checklist item whose name it matches,
      mapped, or pending when no item matches; no section is ever more-info. */
  function SectionStatusesOf(items: seq<ClearanceItem>): (r: Modal.SectionStatuses)
    ensures forall section, i :: Seqs.FirstMatch(items, ItemMatcher(section), i) ==>
      Modal.Get(r, section) == MapClearanceStatus(items[i].status)
    ensures forall section ::
      (forall i :: 0 <= i < |items| ==> !SectionMatches(section, items[i].name)) ==>
      Modal.Get(r, section) == Modal.Pending
    ensures forall section :: Modal.Get(r, section) != Modal.MoreInfo
  {
    Modal.SectionStatuses(
      MapClearanceStatus(SectionItemStatus(items, Modal.HostelAdmin)),
      MapClearanceStatus(SectionItemStatus(items, Modal.RoomInspection)),
      MapClearanceStatus(SectionItemStatus(items, Modal.KeyProperty)),
      MapClearanceStatus(SectionItemStatus(items, Modal.Finance)))
  }

  /** `department || "Not specified"` and `photoUrl || ...`: a missing or empty value falls back. */
  function OrDefault(value: Option<string>, fallback: string): string
  {
    if value.Some? && value.value != "" then value.value else fallback
  }

  /** `roomNumber.charAt(0) + " Block"`. */
  function HostelOf(roomNumber: string): string
  {
    (if roomNumber == "" then "" else [roomNumber[0]]) + " Block"
  }

  /** `mapToStudentData`. */
  function MapToStudentData(c: Clearance): (d: Modal.StudentData)
    ensures d.id == c.id && d.name == c.studentName
    ensures d.studentNumber == c.registrationNumber && d.room == c.roomNumber
    ensures d.clearanceStatus == SectionStatusesOf(c.clearanceItems)
  {
    Modal.StudentData(
      c.id,
      c.studentName,
      c.registrationNumber,
      OrDefault(c.department, "Not specified"),
      HostelOf(c.roomNumber),
      c.roomNumber,
      OrDefault(c.photoUrl, DefaultPhotoUrl),
      SectionStatusesOf(c.clearanceItems))
  }

  /** The student details shown in the modal: missing or empty department and
      photo fall back to their defaults, and the hostel is the block letter,
      the room number's first character. */
  lemma StudentDetails(c: Clearance)
    ensures var d := MapToStudentData(c);
      && d.department != "" && d.photoUrl != ""
      && (c.department.Some? && c.department.value != "" ==> d.department == c.department.value)
      && (c.department.None? || c.department == Some("") ==> d.department == "Not specified")
      && (c.photoUrl.Some? && c.photoUrl.value != "" ==> d.photoUrl == c.photoUrl.value)
      && (c.photoUrl.None? || c.photoUrl == Some("") ==> d.photoUrl == DefaultPhotoUrl)
      && (c.roomNumber != "" ==> d.hostel == [c.roomNumber[0]] + " Block" && d.hostel[0] == d.room[0])
      && (c.roomNumber == "" ==> d.hostel == " Block")
  {
  }

  /** A search hit: the stored, already lower-cased term occurs in the
      lower-cased student name, registration number or room number. */
  predicate MatchesSearch(c: Clearance, term: string)
  {
    || Text.Contains(Text.ToLower(c.studentName), term)
    || Text.Contains(Text.ToLower(c.registrationNumber), term)
    || Text.Contains(Text.ToLower(c.roomNumber), term)
  }

  /** `filteredClearances`. */
  function FilteredClearances(clearances: seq<Clearance>, term: string): (r: seq<Clearance>)
    ensures Seqs.IsSubsequence(r, clearances)
    ensures forall c :: c in r <==> c in clearances && MatchesSearch(c, term)
    ensures forall c :: multiset(r)[c] == if MatchesSearch(c, term) then multiset(clearances)[c] else 0
    ensures term == "" ==> r == clearances
  {
    Seqs.Filter(clearances, c => MatchesSearch(c, term))
  }

  /** `handleSearch` stores the term lower-cased, so the search ignores the
      case of what was typed: a request is listed exactly when the typed text,
      lower-cased, occurs in its lower-cased name, registration number or room
      number, and so whenever the typed text occurs in one of them as it is. */
  lemma SearchIgnoresCase(clearances: seq<Clearance>, typed: string, c: Clearance)
    ensures c in FilteredClearances(clearances, Text.ToLower(typed)) <==>
      c in clearances &&
      (|| Text.Contains(Text.ToLower(c.studentName), Text.ToLower(typed))
       || Text.Contains(Text.ToLower(c.registrationNumber), Text.ToLower(typed))
       || Text.Contains(Text.ToLower(c.roomNumber), Text.ToLower(typed)))
    ensures c in clearances &&
      (|| Text.Contains(c.studentName, typed)
       || Text.Contains(c.registrationNumber, typed)
       || Text.Contains(c.roomNumber, typed))
      ==> c in FilteredClearances(clearances, Text.ToLower(typed))
  {
    if Text.Contains(c.studentName, typed) {
      Text.ContainsToLower(c.studentName, typed);
    }
    if Text.Contains(c.registrationNumber, typed) {
      Text.ContainsToLower(c.registrationNumber, typed);
    }
    if Text.Contains(c.roomNumber, typed) {
      Text.ContainsToLower(c.roomNumber, typed);
    }
  }

  const JaneSmith := Clearance(
    "2", "Jane Smith", "NKU/2024/002", "B202", Final,
    ItemFlags(true, true, true, true), RequestCleared, "2024-03-14",
    [ ClearanceItem("Outstanding Fees", Cleared, Some("All fees paid")),
      ClearanceItem("Room Condition", Cleared, Some("Room in good condition")),
      ClearanceItem("Library Books", Cleared, Some("All books returned")),
      ClearanceItem("Property Damage", Cleared, Some("No damage reported")),
      ClearanceItem("Disciplinary Record", Cleared, Some("No incidents reported"))],
    Some("Business Administration"), Some(DefaultPhotoUrl))

  /** Jane Smith's request, every item cleared, opens fully cleared. */
  lemma JaneSmithFullyCleared()
    ensures Modal.IsFullyCleared(MapToStudentData(JaneSmith).clearanceStatus)
  {
    var items := JaneSmith.clearanceItems;
    forall section ensures HasMatch(items, section) {
      match section
      case HostelAdmin =>
        assert Text.OccursAt(items[1].name, "Room", 0);
        Text.ContainsAt(items[1].name, "Room", 0);
        var _ := FirstIndex(items, ItemMatcher(section), 1);
      case RoomInspection =>
        assert Text.OccursAt(items[3].name, "Property", 0);
        Text.ContainsAt(items[3].name, "Property", 0);
        var _ := FirstIndex(items, ItemMatcher(section), 3);
      case KeyProperty =>
        assert Text.OccursAt(items[2].name, "Library", 0);
        Text.ContainsAt(items[2].name, "Library", 0);
        var _ := FirstIndex(items, ItemMatcher(section), 2);
      case Finance =>
        assert Text.OccursAt(items[0].name, "Fees", 12);
        Text.ContainsAt(items[0].name, "Fees", 12);
        var _ := FirstIndex(items, ItemMatcher(section), 0);
    }
    AllItemsClearedGivesFullClearance(JaneSmith);
  }

  /** Some checklist item's name matches `section`. */
  ghost predicate HasMatch(items: seq<ClearanceItem>, section: Modal.Section)
  {
    exists i :: Seqs.FirstMatch(items, ItemMatcher(section), i)
  }

  /** A request whose every checklist item is cleared opens the modal fully
      cleared, with Proceed enabled. */
  lemma AllItemsClearedGivesFullClearance(c: Clearance)
    requires forall i :: 0 <= i < |c.clearanceItems| ==> c.clearanceItems[i].status == Cleared
    ensures Modal.IsFullyCleared(MapToStudentData(c).clearanceStatus) <==>
      forall section :: HasMatch(c.clearanceItems, section)
  {
    var d := MapToStudentData(c);
    forall section
      ensures Modal.Get(d.clearanceStatus, section) == Modal.Approved <==> HasMatch(c.clearanceItems, section)
    {
      if exists i :: Seqs.FirstMatch(c.clearanceItems, ItemMatcher(section), i) {
        var i :| Seqs.FirstMatch(c.clearanceItems, ItemMatcher(section), i);
        assert Modal.Get(d.clearanceStatus, section) == MapClearanceStatus(c.clearanceItems[i].status);
      } else {
        forall i | 0 <= i < |c.clearanceItems|
          ensures !SectionMatches(section, c.clearanceItems[i].name)
        {
          if SectionMatches(section, c.clearanceItems[i].name) {
            var j := FirstIndex(c.clearanceItems, ItemMatcher(section), i);
          }
        }
        assert Modal.Get(d.clearanceStatus, section) == Modal.Pending;
      }
    }
  }

  /** Some element satisfies `p` at or before `i`, so there is a first one. */
  lemma {:induction false} FirstIndex<T>(s: seq<T>, p: T -> bool, i: int) returns (j: int)
    requires 0 <= i < |s| && p(s[i])
    ensures Seqs.FirstMatch(s, p, j) && j <= i
    decreases i
  {
    if forall k :: 0 <= k < i ==> !p(s[k]) {
      j := i;
    } else {
      var k :| 0 <= k < i && p(s[k]);
      j := FirstIndex(s, p, k);
    }
  }
}
