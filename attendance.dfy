/** The attendance records of src/backend/Attendance.cpp: the status words
    and the in-memory repository used when no database is configured. */
module Attendance {
  import opened Wrappers

  datatype AttendanceStatus = Present | Absent | Leave

  datatype Student = Student(studentId: string, name: string)

  datatype AttendanceRecord = AttendanceRecord(studentId: string, dateIso: string, status: AttendanceStatus)

  /** `statusFromString`: the three words, and Present for anything else. */
  function StatusFromString(value: string): AttendanceStatus {
    if value == "present" then Present
    else if value == "absent" then Absent
    else if value == "leave" then Leave
    else Present
  }

  /** `statusToString`. */
  function StatusToString(status: AttendanceStatus): string {
    match status
    case Present => "present"
    case Absent => "absent"
    case Leave => "leave"
  }

  /** The words the status is written as. */
  const StatusWords: set<string> := {"present", "absent", "leave"}

  /** Writing a status and reading it back gives the status; reading a word
      and writing it back gives the word exactly when it is one of the three,
      and every other word reads as Present. */
  lemma StatusRoundTrip(status: AttendanceStatus, value: string)
    ensures StatusFromString(StatusToString(status)) == status
    ensures StatusToString(StatusFromString(value)) == value <==> value in StatusWords
    ensures value !in StatusWords ==> StatusFromString(value) == Present
    ensures StatusToString(status) in StatusWords
  {
  }

  /** The first student with the given id, the reference reading of the
      `find_if` search. */
  function FirstWithId(students: seq<Student>, studentId: string): Option<Student> {
    if students == [] then None
    else if students[0].studentId == studentId then Some(students[0])
    else FirstWithId(students[1..], studentId)
  }

  /** The search finds nothing exactly when no student has the id; otherwise
      it returns the student at the first index with that id. */
  lemma {:induction false} FirstWithIdMeaning(students: seq<Student>, studentId: string) returns (k: nat)
    ensures FirstWithId(students, studentId).None? <==>
      forall m :: 0 <= m < |students| ==> students[m].studentId != studentId
    ensures FirstWithId(students, studentId).Some? ==>
      && k < |students| && FirstWithId(students, studentId).value == students[k]
      && students[k].studentId == studentId
      && forall m :: 0 <= m < k ==> students[m].studentId != studentId
  {
    if students == [] {
      return 0;
    }
    if students[0].studentId == studentId {
      return 0;
    }
    var j := FirstWithIdMeaning(students[1..], studentId);
    k := j + 1;
    forall m | 0 < m < |students|
      ensures students[m] == students[1..][m - 1]
    {
    }
  }

  /** The two sample students the repository starts with. */
  const SampleStudents: seq<Student> :=
    [Student("2023xxxxxxxx1", "haoxiang"), Student("2023xxxxxxxx2", "yuyang")]

  /** `InMemoryAttendanceRepository`. Its mutex is not modelled. */
  class InMemoryAttendanceRepository {
    var students: seq<Student>
    var records: seq<AttendanceRecord>

    /** The repository `createAttendanceRepository` returns: the sample
        students and no records. */
    constructor()
      ensures students == SampleStudents && records == []
    {
      students := SampleStudents;
      records := [];
    }

    /** `listStudents`: a copy of the students, in insertion order. */
    method ListStudents() returns (r: seq<Student>)
      ensures r == students
    {
      r := students;
    }

    /** `findStudentById`: the first student with the id, scanning in
        order. */
    method FindStudentById(studentId: string) returns (r: Option<Student>)
      ensures r == FirstWithId(students, studentId)
    {
      var i := 0;
      assert students[i..] == students;
      while i < |students|
        invariant i <= |students|
        invariant FirstWithId(students[i..], studentId) == FirstWithId(students, studentId)
      {
        if students[i].studentId == studentId {
          return Some(students[i]);
        }
        assert students[i..][1..] == students[i + 1..];
        i := i + 1;
      }
      r := None;
    }

    /** `markAttendance`: the record is appended and the call reports
        success; the students are untouched. */
    method MarkAttendance(record: AttendanceRecord) returns (ok: bool)
      modifies this`records
      ensures ok
      ensures records == old(records) + [record]
    {
      records := records + [record];
      ok := true;
    }
  }

  /** On the repository's starting list a lookup finds a student exactly
      for the two sample ids, and then the student with that id. */
  lemma SampleStudentsFound(studentId: string)
    ensures FirstWithId(SampleStudents, studentId).Some? <==>
      studentId == "2023xxxxxxxx1" || studentId == "2023xxxxxxxx2"
    ensures FirstWithId(SampleStudents, studentId).Some? ==>
      FirstWithId(SampleStudents, studentId).value in SampleStudents &&
      FirstWithId(SampleStudents, studentId).value.studentId == studentId
  {
    var rest := SampleStudents[1..];
    assert rest[1..] == [];
    assert FirstWithId(rest[1..], studentId) == None;
  }
}
