/** The student clearance modal (src/pages/clearance-management/student-clearance-modal.tsx):
    four sections, each with a status, that must all be approved before the
    clearance may proceed. */
module StudentClearanceModal {

  /** `"pending" | "approved" | "rejected" | "more-info"`. */
  datatype ClearanceStatus = Pending | Approved | Rejected | MoreInfo

  /** The keys of the section record. */
  datatype Section = HostelAdmin | RoomInspection | KeyProperty | Finance

  /** `clearanceStatus: { hostelAdmin, roomInspection, keyProperty, finance }`. */
  datatype SectionStatuses = SectionStatuses(
    hostelAdmin: ClearanceStatus,
    roomInspection: ClearanceStatus,
    keyProperty: ClearanceStatus,
    finance: ClearanceStatus)

  /** `StudentData`, what the modal is opened on. */
  datatype StudentData = StudentData(
    id: string,
    name: string,
    studentNumber: string,
    department: string,
    hostel: string,
    room: string,
    photoUrl: string,
    clearanceStatus: SectionStatuses)

  function Get(r: SectionStatuses, section: Section): ClearanceStatus
  {
    match section
    case HostelAdmin => r.hostelAdmin
    case RoomInspection => r.roomInspection
    case KeyProperty => r.keyProperty
    case Finance => r.finance
  }

  /** `{ ...prev, [section]: status }`. */
  function WithStatus(r: SectionStatuses, section: Section, status: ClearanceStatus): (r': SectionStatuses)
    ensures Get(r', section) == status
    ensures forall other :: other != section ==> Get(r', other) == Get(r, other)
  {
    match section
    case HostelAdmin => r.(hostelAdmin := status)
    case RoomInspection => r.(roomInspection := status)
    case KeyProperty => r.(keyProperty := status)
    case Finance => r.(finance := status)
  }

  /** Setting a section twice to the same status is setting it once, and
      setting it to the status it has changes nothing. */
  lemma WithStatusIdempotent(r: SectionStatuses, section: Section, status: ClearanceStatus)
    ensures WithStatus(WithStatus(r, section, status), section, status) == WithStatus(r, section, status)
    ensures WithStatus(r, section, Get(r, section)) == r
  {
  }

  /** `isFullyCleared`: every value of the section record is approved, that
      is, each of its four fields. */
  predicate IsFullyCleared(r: SectionStatuses)
    ensures IsFullyCleared(r) <==>
      && r.hostelAdmin == Approved && r.roomInspection == Approved
      && r.keyProperty == Approved && r.finance == Approved
  {
    assert (forall section :: Get(r, section) == Approved) <==>
      && Get(r, HostelAdmin) == Approved && Get(r, RoomInspection) == Approved
      && Get(r, KeyProperty) == Approved && Get(r, Finance) == Approved
    by {
      if && Get(r, HostelAdmin) == Approved && Get(r, RoomInspection) == Approved
         && Get(r, KeyProperty) == Approved && Get(r, Finance) == Approved {
        forall section
          ensures Get(r, section) == Approved
        {
          assert section.HostelAdmin? || section.RoomInspection? || section.KeyProperty? || section.Finance?;
        }
      }
    }
    forall section :: Get(r, section) == Approved
  }

  function Indicator(b: bool): nat
  {
    if b then 1 else 0
  }

  /** The number of approved sections, the numerator of `calculateProgress`. */
  function ApprovedCount(r: SectionStatuses): (n: nat)
    ensures n <= 4
    ensures n == 4 <==> IsFullyCleared(r)
    ensures n == 0 <==> forall section :: Get(r, section) != Approved
  {
    Indicator(Get(r, HostelAdmin) == Approved) + Indicator(Get(r, RoomInspection) == Approved)
    + Indicator(Get(r, KeyProperty) == Approved) + Indicator(Get(r, Finance) == Approved)
  }

  /** `calculateProgress()`: approved sections over four sections, times 100.
      The quotient of a count by four is exact, so the percentage is a whole
      number. */
  function ProgressPercent(r: SectionStatuses): (p: nat)
    ensures p <= 100 && p % 25 == 0
    ensures p == 100 <==> IsFullyCleared(r)
    ensures p == 0 <==> forall section :: Get(r, section) != Approved
  {
    ApprovedCount(r) * 25
  }

  /** Changing one section moves the count by that section alone. */
  lemma ApprovedCountAfterUpdate(r: SectionStatuses, section: Section, status: ClearanceStatus)
    ensures ApprovedCount(WithStatus(r, section, status)) + Indicator(Get(r, section) == Approved)
         == ApprovedCount(r) + Indicator(status == Approved)
  {
    match section
    case HostelAdmin =>
    case RoomInspection =>
    case KeyProperty =>
    case Finance =>
  }

  /** Setting a section to anything but approved leaves the student not fully
      cleared; approving the last unapproved section clears them fully. */
  lemma UpdateAndFullClearance(r: SectionStatuses, section: Section, status: ClearanceStatus)
    ensures status != Approved ==> !IsFullyCleared(WithStatus(r, section, status))
    ensures status == Approved && (forall other :: other != section ==> Get(r, other) == Approved)
      ==> IsFullyCleared(WithStatus(r, section, status))
  {
  }

  /** The overall label. */
  function OverallLabel(r: SectionStatuses): (text: string)
    ensures text == "Fully Cleared" <==> IsFullyCleared(r)
    ensures text == "Pending Clearance" <==> !IsFullyCleared(r)
  {
    if IsFullyCleared(r) then "Fully Cleared" else "Pending Clearance"
  }

  /** `disabled={!isFullyCleared}` on Proceed. */
  predicate ProceedDisabled(r: SectionStatuses)
  {
    !IsFullyCleared(r)
  }

  /** Proceed is enabled exactly when all four sections are approved, which is
      when the progress bar is full. */
  lemma ProceedEnabledIff(r: SectionStatuses)
    ensures !ProceedDisabled(r) <==>
      && Get(r, HostelAdmin) == Approved && Get(r, RoomInspection) == Approved
      && Get(r, KeyProperty) == Approved && Get(r, Finance) == Approved
    ensures !ProceedDisabled(r) <==> ProgressPercent(r) == 100
  {
    if Get(r, HostelAdmin) == Approved && Get(r, RoomInspection) == Approved
      && Get(r, KeyProperty) == Approved && Get(r, Finance) == Approved
    {
      forall section ensures Get(r, section) == Approved {
        match section
        case HostelAdmin =>
        case RoomInspection =>
        case KeyProperty =>
        case Finance =>
      }
    }
  }

  /** The modal's state: the section record, seeded from the student. */
  class ClearanceModal {
    const student: StudentData
    var clearanceStatus: SectionStatuses

    constructor (student: StudentData)
      ensures this.student == student
      ensures clearanceStatus == student.clearanceStatus
    {
      this.student := student;
      clearanceStatus := student.clearanceStatus;
    }

    /** `updateStatus(section, status)`: overwrite one section. */
    method UpdateStatus(section: Section, status: ClearanceStatus)
      modifies this`clearanceStatus
      ensures clearanceStatus == WithStatus(old(clearanceStatus), section, status)
      ensures Get(clearanceStatus, section) == status
      ensures forall other :: other != section ==> Get(clearanceStatus, other) == Get(old(clearanceStatus), other)
      ensures status != Approved ==> ProceedDisabled(clearanceStatus)
    {
      clearanceStatus := WithStatus(clearanceStatus, section, status);
    }
  }
}
