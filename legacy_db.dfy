/** The older data-access layer, database.py: the same students table, and a
    counseling_records table without the category column (database.py:149-158).
    The database file is the state of class Database; every operation that the
    source runs inside `try ... except sqlite3.Error` takes a `fault` flag standing
    for an error raised by the storage engine, in which case nothing is committed. */
module LegacyDb {
  import opened Wrappers
  import opened Sequences
  import opened StudentTable
  import opened ChildTable
  import Collation
  import Csv

  /** the record dict passed to add_counsel_record and update_counsel_record */
  datatype Payload = Payload(counselDate: string, target: string, counselMethod: string, content: string)

  datatype Record = Record(
    id: nat,
    studentId: nat,
    counselDate: string,
    target: string,
    counselMethod: string,
    content: string,
    createdAt: string)

  function RecordId(r: Record): int { r.id }
  function RecordOwner(r: Record): int { r.studentId }

  /** the columns PRAGMA table_info lists for counseling_records, in order */
  const Columns: seq<string> :=
    ["id", "student_id", "counsel_date", "target", "method", "content", "created_at"]

  /** both tables as the schema keeps them */
  ghost predicate ValidTables(ss: seq<Student>, rs: seq<Record>, lastStudentId: nat, lastRecordId: nat) {
    ValidStudents(ss, lastStudentId) && ValidRecords(ss, rs, RecordId, RecordOwner, lastRecordId)
  }

  /** the dict get_counsel_records and get_counsel_record return */
  datatype RecordView = RecordView(id: nat, counselDate: string, target: string, counselMethod: string, content: string)

  function ToView(r: Record): RecordView {
    RecordView(r.id, r.counselDate, r.target, r.counselMethod, r.content)
  }

  /** ORDER BY counsel_date DESC */
  predicate LaterFirst(a: RecordView, b: RecordView) {
    Collation.Le(b.counselDate, a.counselDate)
  }

  lemma LaterFirstOrder()
    ensures TotalPreorder(LaterFirst)
  {
    Collation.LeIsTotalOrder();
  }

  /** The query of get_counsel_records (database.py:320-331): the records of the
      student with that name, most recent counsel_date first; none for an unknown name. */
  function RecordsOf(ss: seq<Student>, rs: seq<Record>, name: string): (r: seq<RecordView>)
    ensures IndexOfName(ss, name).None? ==> r == []
    ensures IndexOfName(ss, name).Some? ==>
      multiset(r) == multiset(MapSeq(OwnedBy(rs, RecordOwner, ss[IndexOfName(ss, name).value].id), ToView))
    ensures forall i, j :: 0 <= i < j < |r| ==> Collation.Le(r[j].counselDate, r[i].counselDate)
  {
    match IndexOfName(ss, name)
    case None => []
    case Some(k) =>
      LaterFirstOrder();
      SortBy(MapSeq(OwnedBy(rs, RecordOwner, ss[k].id), ToView), LaterFirst)
  }

  /** the six columns of a record in the CSV exports (database.py:63-69) */
  function RecordRow(ss: seq<Student>, r: Record): (row: Csv.Row)
    ensures |row| == |RecordHeader|
    ensures row[0] == OwnerName(ss, r.studentId) && row[1] == r.counselDate
    ensures row[2] == r.target && row[3] == r.counselMethod && row[4] == r.content && row[5] == r.createdAt
  {
    [OwnerName(ss, r.studentId), r.counselDate, r.target, r.counselMethod, r.content, r.createdAt]
  }

  const RecordHeader: Csv.Row := ["학생이름", "상담일시", "상담대상", "상담방법", "상담내용", "생성일시"]

  /** The record block of the exports: one row per record joined to its student,
      ordered by student name and then counsel_date. */
  function RecordRows(ss: seq<Student>, rs: seq<Record>): (r: seq<Csv.Row>)
    ensures multiset(r) == multiset(MapSeq(Joined(ss, rs, RecordOwner), (x: Record) => RecordRow(ss, x)))
    ensures forall i :: 0 <= i < |r| ==> |r[i]| == |RecordHeader|
    ensures Sorted(r, Csv.FirstTwoColumnsLe)
  {
    Csv.FirstTwoColumnsOrder();
    var rows := MapSeq(Joined(ss, rs, RecordOwner), (x: Record) => RecordRow(ss, x));
    var r := SortBy(rows, Csv.FirstTwoColumnsLe);
    Csv.PermutationKeepsWidth(rows, r, |RecordHeader|);
    r
  }

  /** Under the foreign key every record reaches the export. */
  lemma RecordRowsCoverAll(ss: seq<Student>, rs: seq<Record>, lastStudentId: nat, lastRecordId: nat)
    requires ValidTables(ss, rs, lastStudentId, lastRecordId)
    ensures multiset(RecordRows(ss, rs)) == multiset(MapSeq(rs, (x: Record) => RecordRow(ss, x)))
  {
    JoinKeepsAll(ss, rs, RecordId, RecordOwner, lastRecordId);
  }

  class Database {
    var students: seq<Student>
    var records: seq<Record>
    /** the AUTOINCREMENT counters of the two tables (sqlite_sequence) */
    var lastStudentId: nat
    var lastRecordId: nat

    ghost predicate Valid()
      reads this
    {
      ValidTables(students, records, lastStudentId, lastRecordId)
    }

    /** init_database on a new file: both tables created empty */
    constructor ()
      ensures Valid()
      ensures students == [] && records == [] && lastStudentId == 0 && lastRecordId == 0
    {
      students, records := [], [];
      lastStudentId, lastRecordId := 0, 0;
    }

    /** add_student: fails on a name already in the table (UNIQUE), otherwise
        inserts the name with the info fields, '' for each missing one */
    method AddStudent(name: string, info: Info, now: string, fault: bool) returns (ok: bool)
      requires Valid()
      modifies this
      ensures Valid()
      ensures ok <==> !fault && IndexOfName(old(students), name).None?
      ensures ok ==> students == old(students) + [NewStudent(old(lastStudentId) + 1, name, info, now)]
      ensures ok ==> lastStudentId == old(lastStudentId) + 1
      ensures !ok ==> students == old(students) && lastStudentId == old(lastStudentId)
      ensures records == old(records) && lastRecordId == old(lastRecordId)
    {
      if fault || IndexOfName(students, name).Some? {
        return false;
      }
      var s := NewStudent(lastStudentId + 1, name, info, now);
      InsertStudentKeepsValid(students, lastStudentId, s, records, RecordId, RecordOwner, lastRecordId);
      students := students + [s];
      lastStudentId := lastStudentId + 1;
      ok := true;
    }

    /** update_student: an absent name violates NOT NULL, a name held by another
        row violates UNIQUE; otherwise row id, if it exists, gets the seven fields
        and a new updated_at. An empty name is accepted. */
    method UpdateStudent(id: int, info: Info, now: string, fault: bool) returns (ok: bool)
      requires Valid()
      modifies this
      ensures Valid()
      ensures ok <==> && !fault && NameKey in info
                      && !NameHeldByOther(old(students), id, info[NameKey])
                      && IndexOfId(old(students), id).Some?
      ensures ok ==>
        var k := IndexOfId(old(students), id).value;
        students == old(students)[k := Rewritten(old(students)[k], info[NameKey], info, now)]
      ensures !ok ==> students == old(students)
      ensures lastStudentId == old(lastStudentId)
      ensures records == old(records) && lastRecordId == old(lastRecordId)
    {
      var updatedName := Lookup(info, NameKey);
      if fault || updatedName.None? || NameHeldByOther(students, id, updatedName.value) {
        return false;
      }
      match IndexOfId(students, id)
      case None =>
        ok := false;
      case Some(k) =>
        var s := Rewritten(students[k], updatedName.value, info, now);
        RewriteStudentKeepsValid(students, lastStudentId, k, s, records, RecordId, RecordOwner, lastRecordId);
        students := students[k := s];
        ok := true;
    }

    /** delete_student: removes the student with that name and, by ON DELETE
        CASCADE, every record of that student */
    method DeleteStudent(name: string, fault: bool) returns (ok: bool)
      requires Valid()
      modifies this
      ensures Valid()
      ensures ok <==> !fault && IndexOfName(old(students), name).Some?
      ensures ok ==>
        var k := IndexOfName(old(students), name).value;
        && students == RemoveAt(old(students), k)
        && records == Cascade(old(records), RecordOwner, old(students)[k].id)
      ensures !ok ==> students == old(students) && records == old(records)
      ensures lastStudentId == old(lastStudentId) && lastRecordId == old(lastRecordId)
    {
      if fault {
        return false;
      }
      match IndexOfName(students, name)
      case None =>
        ok := false;
      case Some(k) =>
        DeleteCascadeKeepsValid(students, lastStudentId, k, records, RecordId, RecordOwner, lastRecordId);
        records := Cascade(records, RecordOwner, students[k].id);
        students := RemoveAt(students, k);
        ok := true;
    }

    /** get_student: the row with that name, None when there is none */
    function GetStudent(name: string, fault: bool): (r: Option<StudentView>)
      reads this
      requires Valid()
      ensures fault ==> r.None?
      ensures !fault ==> r == FindByName(students, name)
    {
      if fault then None else FindByName(students, name)
    }

    /** get_all_students: every name, ascending */
    function GetAllStudents(fault: bool): (r: seq<string>)
      reads this
      requires Valid()
      ensures fault ==> r == []
      ensures !fault ==> r == NamesInOrder(students)
    {
      if fault then [] else NamesInOrder(students)
    }

    /** add_counsel_record: looks the student up by name; an unknown name inserts
        nothing, otherwise one record with the four payload fields is appended */
    method AddCounselRecord(name: string, p: Payload, now: string, fault: bool) returns (ok: bool)
      requires Valid()
      modifies this
      ensures Valid()
      ensures ok <==> !fault && IndexOfName(old(students), name).Some?
      ensures ok ==>
        var sid := old(students)[IndexOfName(old(students), name).value].id;
        && records == old(records) + [Record(old(lastRecordId) + 1, sid, p.counselDate, p.target, p.counselMethod, p.content, now)]
        && lastRecordId == old(lastRecordId) + 1
      ensures !ok ==> records == old(records) && lastRecordId == old(lastRecordId)
      ensures students == old(students) && lastStudentId == old(lastStudentId)
    {
      if fault {
        return false;
      }
      match IndexOfName(students, name)
      case None =>
        ok := false;
      case Some(k) =>
        var r := Record(lastRecordId + 1, students[k].id, p.counselDate, p.target, p.counselMethod, p.content, now);
        InsertRecordKeepsValid(students, records, r, RecordId, RecordOwner, lastRecordId);
        records := records + [r];
        lastRecordId := lastRecordId + 1;
        ok := true;
    }

    /** get_counsel_records: the student's records, most recent first */
    function GetCounselRecords(name: string, fault: bool): (r: seq<RecordView>)
      reads this
      requires Valid()
      ensures fault ==> r == []
      ensures !fault ==> r == RecordsOf(students, records, name)
    {
      if fault then [] else RecordsOf(students, records, name)
    }

    /** get_counsel_record: the record with that id, None when there is none */
    function GetCounselRecord(id: int, fault: bool): (r: Option<RecordView>)
      reads this
      requires Valid()
      ensures r.Some? <==> !fault && exists k :: 0 <= k < |records| && records[k].id == id
      ensures r.Some? ==> exists k :: 0 <= k < |records| && records[k].id == id && r.value == ToView(records[k])
    {
      if fault then None
      else match IndexOf(records, RecordId, id)
        case Some(k) => Some(ToView(records[k]))
        case None => None
    }

    /** update_counsel_record: rewrites the four payload fields of row id; reports
        success whether or not such a row exists */
    method UpdateCounselRecord(id: int, p: Payload, fault: bool) returns (ok: bool)
      requires Valid()
      modifies this
      ensures Valid()
      ensures ok <==> !fault
      ensures ok && IndexOf(old(records), RecordId, id).Some? ==>
        var k := IndexOf(old(records), RecordId, id).value;
        records == old(records)[k := old(records)[k].(counselDate := p.counselDate, target := p.target, counselMethod := p.counselMethod, content := p.content)]
      ensures !ok || IndexOf(old(records), RecordId, id).None? ==> records == old(records)
      ensures students == old(students) && lastStudentId == old(lastStudentId) && lastRecordId == old(lastRecordId)
    {
      if fault {
        return false;
      }
      ok := true;
      match IndexOf(records, RecordId, id)
      case None =>
      case Some(k) =>
        var r := records[k].(counselDate := p.counselDate, target := p.target, counselMethod := p.counselMethod, content := p.content);
        RewriteRecordKeepsValid(students, records, k, r, RecordId, RecordOwner, lastRecordId);
        records := records[k := r];
    }

    /** delete_counsel_record_by_id: reports whether a row was removed */
    method DeleteCounselRecordById(id: int, fault: bool) returns (ok: bool)
      requires Valid()
      modifies this
      ensures Valid()
      ensures ok <==> !fault && IndexOf(old(records), RecordId, id).Some?
      ensures ok ==> records == RemoveAt(old(records), IndexOf(old(records), RecordId, id).value)
      ensures !ok ==> records == old(records)
      ensures students == old(students) && lastStudentId == old(lastStudentId) && lastRecordId == old(lastRecordId)
    {
      if fault {
        return false;
      }
      match IndexOf(records, RecordId, id)
      case None =>
        ok := false;
      case Some(k) =>
        DeleteRecordKeepsValid(students, records, k, RecordId, RecordOwner, lastRecordId);
        records := RemoveAt(records, k);
        ok := true;
    }

    /** export_to_csv: both sections in one file; a storage or file error exports nothing */
    function ExportToCsv(dbFault: bool, ioFault: bool): (r: Option<Csv.Table>)
      reads this
      requires Valid()
      ensures r.Some? <==> !dbFault && !ioFault
      ensures r.Some? ==>
        Csv.ReadSections(r.value) == Some((StudentHeader, StudentRows(students), RecordHeader, RecordRows(students, records)))
      ensures r.Some? ==>
        r.value == Csv.TwoSections(StudentHeader, StudentRows(students), RecordHeader, RecordRows(students, records))
    {
      if dbFault || ioFault then None
      else
        var studentRows := StudentRows(students);
        Csv.ReadTwoSections(StudentHeader, studentRows, RecordHeader, RecordRows(students, records));
        Some(Csv.TwoSections(StudentHeader, studentRows, RecordHeader, RecordRows(students, records)))
    }

    /** export_students_to_csv: the student section alone */
    function ExportStudentsToCsv(dbFault: bool, ioFault: bool): (r: Option<Csv.Table>)
      reads this
      requires Valid()
      ensures r.Some? <==> !dbFault && !ioFault
      ensures r.Some? ==> r.value == [StudentHeader] + StudentRows(students)
    {
      if dbFault then None else Csv.WriteCsv(StudentHeader, StudentRows(students), ioFault)
    }

    /** export_counseling_to_csv: the record section alone */
    function ExportCounselingToCsv(dbFault: bool, ioFault: bool): (r: Option<Csv.Table>)
      reads this
      requires Valid()
      ensures r.Some? <==> !dbFault && !ioFault
      ensures r.Some? ==> r.value == [RecordHeader] + RecordRows(students, records)
    {
      if dbFault then None else Csv.WriteCsv(RecordHeader, RecordRows(students, records), ioFault)
    }
  }
}
