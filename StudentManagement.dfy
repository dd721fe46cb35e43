/** The student list (src/pages/student-management/index.tsx): a read-only list
    of students and its case-insensitive search. */
module StudentManagement {
  import Text
  import Seqs

  /** `'Active' | 'Inactive' | 'Graduated'`. */
  datatype StudentStatus = Active | Inactive | Graduated

  datatype Student = Student(
    id: string,
    name: string,
    registrationNumber: string,
    roomNumber: string,
    course: string,
    year: int,
    contact: string,
    status: StudentStatus)

  /** A search hit: the stored, already lower-cased term occurs in the
      lower-cased name, registration number, room number or course. */
  predicate MatchesSearch(student: Student, term: string)
  {
    || Text.Contains(Text.ToLower(student.name), term)
    || Text.Contains(Text.ToLower(student.registrationNumber), term)
    || Text.Contains(Text.ToLower(student.roomNumber), term)
    || Text.Contains(Text.ToLower(student.course), term)
  }

  /** `filteredStudents`: the students that match, in list order, each record
      unchanged. */
  function FilteredStudents(students: seq<Student>, term: string): (r: seq<Student>)
    ensures |r| <= |students|
    ensures Seqs.IsSubsequence(r, students)
    ensures forall s :: s in r <==> s in students && MatchesSearch(s, term)
    ensures forall s :: multiset(r)[s] == if MatchesSearch(s, term) then multiset(students)[s] else 0
    ensures term == "" ==> r == students
  {
    Seqs.Filter(students, s => MatchesSearch(s, term))
  }

  /** `handleSearch` stores `value.toLowerCase()`: a student is listed exactly
      when what was typed occurs, ignoring case, in one of the four fields, and
      so whenever it occurs in one of them as it was typed. */
  lemma SearchByTypedValue(students: seq<Student>, typed: string, s: Student)
    ensures s in FilteredStudents(students, Text.ToLower(typed)) <==>
      s in students &&
      (|| Text.Contains(Text.ToLower(s.name), Text.ToLower(typed))
       || Text.Contains(Text.ToLower(s.registrationNumber), Text.ToLower(typed))
       || Text.Contains(Text.ToLower(s.roomNumber), Text.ToLower(typed))
       || Text.Contains(Text.ToLower(s.course), Text.ToLower(typed)))
    ensures s in students &&
      (|| Text.Contains(s.name, typed) || Text.Contains(s.registrationNumber, typed)
       || Text.Contains(s.roomNumber, typed) || Text.Contains(s.course, typed))
      ==> s in FilteredStudents(students, Text.ToLower(typed))
  {
    if Text.Contains(s.name, typed) {
      Text.ContainsToLower(s.name, typed);
    }
    if Text.Contains(s.registrationNumber, typed) {
      Text.ContainsToLower(s.registrationNumber, typed);
    }
    if Text.Contains(s.roomNumber, typed) {
      Text.ContainsToLower(s.roomNumber, typed);
    }
    if Text.Contains(s.course, typed) {
      Text.ContainsToLower(s.course, typed);
    }
  }

  /** A term that contains another finds only students the shorter one finds. */
  lemma NarrowingSearch(students: seq<Student>, term: string, longer: string, s: Student)
    requires Text.Contains(longer, term)
    ensures s in FilteredStudents(students, longer) ==> s in FilteredStudents(students, term)
  {
    var low := Text.ToLower;
    if Text.Contains(low(s.name), longer) {
      Text.ContainsTransitive(low(s.name), longer, term);
    }
    if Text.Contains(low(s.registrationNumber), longer) {
      Text.ContainsTransitive(low(s.registrationNumber), longer, term);
    }
    if Text.Contains(low(s.roomNumber), longer) {
      Text.ContainsTransitive(low(s.roomNumber), longer, term);
    }
    if Text.Contains(low(s.course), longer) {
      Text.ContainsTransitive(low(s.course), longer, term);
    }
  }
}
