/** The data-access layer of utils/database.py: the students table, the
    counseling_records table with its category column, the one-column schema
    migration, and the CSV exports including the fixed 16-column layout of the
    NEIS (Korean school-administration system) counseling import.
    The database file is the state of class Database. Every operation that the
    source runs inside `try ... except sqlite3.Error` takes a `fault` flag standing
    for an error raised by the storage engine (and `ioFault` for a failed file
    write), in which case nothing is committed. CURRENT_TIMESTAMP is the `now`
    argument. */
module CounselingDb {
  import opened Wrappers
  import opened Sequences
  import opened StudentTable
  import opened ChildTable
  import Collation
  import Csv
  import LegacyDb

  /** the record dict passed to add_counsel_record and update_counsel_record */
  datatype Payload = Payload(counselDate: string, target: string, counselMethod: string, category: string, content: string)

  /** A counseling_records row. category is None (NULL) only in rows written
      before update_schema added the column. */
  datatype Record = Record(
    id: nat,
    studentId: nat,
    counselDate: string,
    target: string,
    counselMethod: string,
    category: Option<string>,
    content: string,
    createdAt: string)

  function RecordId(r: Record): int { r.id }
  function RecordOwner(r: Record): int { r.studentId }

  /** the columns of counseling_records when create_tables makes the table */
  const CreatedColumns: seq<string> :=
    ["id", "student_id", "counsel_date", "target", "method", "category", "content", "created_at"]

  /** update_schema: ALTER TABLE ... ADD COLUMN category, only when the column is missing */
  function AddCategoryColumn(cols: seq<string>): (r: seq<string>)
    ensures "category" in r
    ensures "category" in cols ==> r == cols
    ensures "category" !in cols ==> r == cols + ["category"]
  {
    if "category" in cols then cols else cols + ["category"]
  }

  /** Running the migration a second time changes nothing. */
  lemma AddCategoryColumnIdempotent(cols: seq<string>)
    ensures AddCategoryColumn(AddCategoryColumn(cols)) == AddCategoryColumn(cols)
  {
  }

  /** both tables as the schema keeps them; without the category column no row has a category */
  ghost predicate ValidTables(ss: seq<Student>, rs: seq<Record>, lastStudentId: nat, lastRecordId: nat, cols: seq<string>) {
    && ValidStudents(ss, lastStudentId)
    && ValidRecords(ss, rs, RecordId, RecordOwner, lastRecordId)
    && ("category" !in cols ==> forall k :: 0 <= k < |rs| ==> rs[k].category.None?)
  }

  /** A row of the older layout as it reads after ADD COLUMN category: NULL category. */
  function Migrate(r: LegacyDb.Record): (m: Record)
    ensures RecordId(m) == LegacyDb.RecordId(r) && RecordOwner(m) == LegacyDb.RecordOwner(r)
    ensures m.category.None?
  {
    Record(r.id, r.studentId, r.counselDate, r.target, r.counselMethod, None, r.content, r.createdAt)
  }

  /** A database written by database.py is a valid database of this layout, before
      and after the migration. */
  lemma MigrateKeepsValid(ss: seq<Student>, rs: seq<LegacyDb.Record>, lastStudentId: nat, lastRecordId: nat)
    requires LegacyDb.ValidTables(ss, rs, lastStudentId, lastRecordId)
    ensures ValidTables(ss, MapSeq(rs, Migrate), lastStudentId, lastRecordId, LegacyDb.Columns)
    ensures ValidTables(ss, MapSeq(rs, Migrate), lastStudentId, lastRecordId, AddCategoryColumn(LegacyDb.Columns))
  {
    var ms := MapSeq(rs, Migrate);
    assert forall k :: 0 <= k < |rs| ==> RecordId(ms[k]) == LegacyDb.RecordId(rs[k]) && RecordOwner(ms[k]) == LegacyDb.RecordOwner(rs[k]);
  }

  /** the dict get_counsel_records and get_counsel_record return */
  datatype RecordView = RecordView(
    id: nat,
    counselDate: string,
    target: string,
    counselMethod: string,
    category: Option<string>,
    content: string)

  function ToView(r: Record): RecordView {
    RecordView(r.id, r.counselDate, r.target, r.counselMethod, r.category, r.content)
  }

  /** ORDER BY counsel_date DESC */
  predicate LaterFirst(a: RecordView, b: RecordView) {
    Collation.Le(b.counselDate, a.counselDate)
  }

  lemma LaterFirstOrder()
    ensures TotalPreorder(LaterFirst)
  {
    Collation.LeIsTotalOrder();
  }

  /** The query of get_counsel_records (utils/database.py:441-452): the records of
      the student with that name, most recent counsel_date first; none for an
      unknown name. */
  function RecordsOf(ss: seq<Student>, rs: seq<Record>, name: string): (r: seq<RecordView>)
    ensures IndexOfName(ss, name).None? ==> r == []
    ensures IndexOfName(ss, name).Some? ==>
      multiset(r) == multiset(MapSeq(OwnedBy(rs, RecordOwner, ss[IndexOfName(ss, name).value].id), ToView))
    ensures forall i, j :: 0 <= i < j < |r| ==> Collation.Le(r[j].counselDate, r[i].counselDate)
  {
    match IndexOfName(ss, name)
    case None => []
    case Some(k) =>
      LaterFirstOrder();
      SortBy(MapSeq(OwnedBy(rs, RecordOwner, ss[k].id), ToView), LaterFirst)
  }

  /** csv.writer writes a NULL (None) as the empty field */
  function NullAsEmpty(v: Option<string>): (s: string)
    ensures v.Some? ==> s == v.value
    ensures v.None? ==> s == ""
  {
    match v
    case Some(x) => x
    case None => ""
  }

  /** the seven columns of a record in the CSV exports (utils/database.py:101-107) */
  function RecordRow(ss: seq<Student>, r: Record): (row: Csv.Row)
    ensures |row| == |RecordHeader|
    ensures row[0] == OwnerName(ss, r.studentId) && row[1] == r.counselDate
    ensures row[2] == r.target && row[3] == r.counselMethod && row[4] == NullAsEmpty(r.category)
    ensures row[5] == r.content && row[6] == r.createdAt
  {
    [OwnerName(ss, r.studentId), r.counselDate, r.target, r.counselMethod, NullAsEmpty(r.category), r.content, r.createdAt]
  }

  const RecordHeader: Csv.Row := ["학생이름", "상담일시", "상담대상", "상담방법", "상담분류", "상담내용", "생성일시"]

  /** The record block of the exports: one row per record joined to its student,
      ordered by student name and then counsel_date. */
  function RecordRows(ss: seq<Student>, rs: seq<Record>): (r: seq<Csv.Row>)
    ensures multiset(r) == multiset(MapSeq(Joined(ss, rs, RecordOwner), (x: Record) => RecordRow(ss, x)))
    ensures forall i :: 0 <= i < |r| ==> |r[i]| == |RecordHeader|
    ensures Sorted(r, Csv.FirstTwoColumnsLe)
  {
    Csv.FirstTwoColumnsOrder();
    var rows := MapSeq(Joined(ss, rs, RecordOwner), (x: Record) => RecordRow(ss, x));
    var r := SortBy(rows, Csv.FirstTwoColumnsLe);
    Csv.PermutationKeepsWidth(rows, r, |RecordHeader|);
    r
  }

  /** A migrated record exports as it did under the older layout, with an empty
      category column added before the content. */
  lemma MigrateKeepsExportRow(ss: seq<Student>, r: LegacyDb.Record)
    ensures RecordRow(ss, Migrate(r))[4] == ""
    ensures RecordRow(ss, Migrate(r))[..4] + RecordRow(ss, Migrate(r))[5..] == LegacyDb.RecordRow(ss, r)
  {
  }

  /** Under the foreign key every record reaches the export. */
  lemma RecordRowsCoverAll(ss: seq<Student>, rs: seq<Record>, lastStudentId: nat, lastRecordId: nat, cols: seq<string>)
    requires ValidTables(ss, rs, lastStudentId, lastRecordId, cols)
    ensures multiset(RecordRows(ss, rs)) == multiset(MapSeq(rs, (x: Record) => RecordRow(ss, x)))
  {
    JoinKeepsAll(ss, rs, RecordId, RecordOwner, lastRecordId);
  }

  // ---------------------------------------------------------------------------
  // The NEIS export (utils/database.py:55-85)

  const NeisHeader: Csv.Row :=
    ["*상담분류", "*Wee클래스", "*대분류", "*중분류", "*상담구분", "*상담인원", "*학년도", "*상담일자",
     "학년", "성별", "*상담제목", "*상담내용", "*상담시간(시)", "*상담시간(분)", "*상담사소속", "*상담매체구분"]

  const FrontValue: Csv.Row := ["일반상담", "일반", "상담", "개인상담"]
  const MiddleValue1: Csv.Row := ["1", "2025"]
  const MiddleValue2: Csv.Row := ["", ""]
  const MiddleValue3: Csv.Row := ["일반 상담은 상담 내용을 입력하지 않습니다.", "0", "10", "교사"]

  predicate IsDigit(c: char) {
    '0' <= c <= '9'
  }

  /** YYYY-MM-DD */
  predicate IsDateShape(d: string) {
    && |d| == 10
    && IsDigit(d[0]) && IsDigit(d[1]) && IsDigit(d[2]) && IsDigit(d[3]) && d[4] == '-'
    && IsDigit(d[5]) && IsDigit(d[6]) && d[7] == '-' && IsDigit(d[8]) && IsDigit(d[9])
  }

  /** HH:MM */
  predicate IsTimeShape(t: string) {
    |t| == 5 && IsDigit(t[0]) && IsDigit(t[1]) && t[2] == ':' && IsDigit(t[3]) && IsDigit(t[4])
  }

  /** SQLite's date() as this model reads it: the date part of `YYYY-MM-DD HH:MM` (the shape
      the record forms store, ui/dialogs.py:142 and ui/main_window.py:364) or of a bare
      `YYYY-MM-DD`; NULL for every other shape */
  function SqlDate(s: string): (r: Option<string>)
    ensures r.Some? ==> |s| >= 10 && r.value == s[..10] && IsDateShape(r.value)
    ensures r.Some? ==> |s| == 10 || (|s| == 16 && s[10] == ' ' && IsTimeShape(s[11..]))
  {
    if |s| >= 10 && IsDateShape(s[..10]) && (|s| == 10 || (s[10] == ' ' && IsTimeShape(s[11..])))
    then Some(s[..10]) else None
  }

  /** Both shapes the model's SqlDate accepts give their date part: the stored
      `YYYY-MM-DD HH:MM` and a bare `YYYY-MM-DD`. */
  lemma SqlDateOfStored(d: string, t: string)
    requires IsDateShape(d) && IsTimeShape(t)
    ensures SqlDate(d) == Some(d)
    ensures SqlDate(d + " " + t) == Some(d)
  {
    assert d[..10] == d;
    var s := d + " " + t;
    assert s[..10] == d && s[10] == ' ' && s[11..] == t;
  }

  /** REPLACE(t, '-', ''): t without its dashes */
  function RemoveDashes(t: string): (r: string)
    ensures |r| <= |t|
    ensures forall i :: 0 <= i < |r| ==> r[i] != '-'
  {
    if t == [] then []
    else if t[0] == '-' then RemoveDashes(t[1..])
    else [t[0]] + RemoveDashes(t[1..])
  }

  lemma {:induction false} RemoveDashesAppend(t: string, u: string)
    ensures RemoveDashes(t + u) == RemoveDashes(t) + RemoveDashes(u)
  {
    if t == [] {
      assert t + u == u;
    } else {
      assert (t + u)[0] == t[0] && (t + u)[1..] == t[1..] + u;
      RemoveDashesAppend(t[1..], u);
    }
  }

  lemma {:induction false} RemoveDashesOfDigits(t: string)
    requires forall i :: 0 <= i < |t| ==> IsDigit(t[i])
    ensures RemoveDashes(t) == t
  {
    if t != [] {
      RemoveDashesOfDigits(t[1..]);
      assert t == [t[0]] + t[1..];
    }
  }

  /** A YYYY-MM-DD date without its two dashes is YYYYMMDD. */
  lemma RemoveDashesOfDate(d: string)
    requires IsDateShape(d)
    ensures RemoveDashes(d) == d[..4] + d[5..7] + d[8..]
  {
    var year, month, day := d[..4], d[5..7], d[8..];
    assert d == year + ['-'] + month + ['-'] + day;
    RemoveDashesAppend(year + ['-'] + month + ['-'], day);
    RemoveDashesAppend(year + ['-'] + month, ['-']);
    RemoveDashesAppend(year + ['-'], month);
    RemoveDashesAppend(year, ['-']);
    RemoveDashesOfDigits(year);
    RemoveDashesOfDigits(month);
    RemoveDashesOfDigits(day);
    assert RemoveDashes(['-']) == [] by {
      assert ['-'][1..] == [];
    }
  }

  /** REPLACE(date(counsel_date), '-', ''), a NULL written as '': YYYYMMDD for a
      stored date, the empty field otherwise */
  function DateDigits(s: string): (r: string)
    ensures SqlDate(s).Some? ==> r == s[..4] + s[5..7] + s[8..10]
    ensures SqlDate(s).None? ==> r == ""
  {
    match SqlDate(s)
    case Some(d) =>
      RemoveDashesOfDate(d);
      assert d[..4] == s[..4] && d[5..7] == s[5..7] && d[8..] == s[8..10];
      RemoveDashes(d)
    case None => ""
  }

  /** a counsel_date as the record form stores it (yyyy-MM-dd HH:mm) */
  lemma DateDigitsExample()
    ensures DateDigits("2024-03-15 10:30") == "20240315"
  {
    var s := "2024-03-15 10:30";
    assert s[..10] == "2024-03-15" && s[11..] == "10:30";
    assert IsDateShape(s[..10]);
    assert IsTimeShape(s[11..]);
    assert SqlDate(s) == Some(s[..10]);
    assert s[..4] == "2024" && s[5..7] == "03" && s[8..10] == "15";
    assert s[..4] + s[5..7] + s[8..10] == "20240315";
  }

  /** One NEIS row, spliced as the source does: the four front literals, the
      category, "1" and "2025", the date, two blanks, the category again, the
      canned content with its "0", "10" and "교사", and the counseling method. */
  function NeisRow(r: Record): (row: Csv.Row)
    ensures |row| == |NeisHeader|
    ensures row[..4] == FrontValue
    ensures row[4] == NullAsEmpty(r.category) && row[10] == NullAsEmpty(r.category)
    ensures row[5..7] == MiddleValue1
    ensures row[7] == DateDigits(r.counselDate)
    ensures row[8..10] == MiddleValue2
    ensures row[11..15] == MiddleValue3
    ensures row[15] == r.counselMethod
  {
    var c, d, m := NullAsEmpty(r.category), DateDigits(r.counselDate), r.counselMethod;
    var selected := [c, d, c, m];
    var step1 := FrontValue + selected[..1] + MiddleValue1 + selected[1..];
    var head8 := FrontValue + [c] + MiddleValue1 + [d];
    assert selected[..1] == [c] && selected[1..] == [d] + [c, m];
    assert step1 == head8 + [c, m];
    var step2 := step1[..8] + MiddleValue2 + step1[8..];
    var head11 := head8 + MiddleValue2 + [c];
    assert step1[..8] == head8 && step1[8..] == [c, m];
    assert step2 == head11 + [m];
    var row := step2[..11] + MiddleValue3 + step2[11..];
    assert step2[..11] == head11 && step2[11..] == [m];
    assert row == head11 + MiddleValue3 + [m];
    row
  }

  /** For the stored YYYY-MM-DD HH:MM counsel_date, and for a bare YYYY-MM-DD, the NEIS date column is YYYYMMDD. */
  lemma NeisDateOfStored(r: Record, d: string, t: string)
    requires IsDateShape(d) && IsTimeShape(t)
    requires r.counselDate == d || r.counselDate == d + " " + t
    ensures NeisRow(r)[7] == d[..4] + d[5..7] + d[8..10]
  {
    SqlDateOfStored(d, t);
    assert r.counselDate[..10] == d by {
      if r.counselDate != d {
        assert (d + " " + t)[..10] == d;
      }
    }
  }

  /** ORDER BY cr.counsel_date */
  predicate EarlierFirst(a: Record, b: Record) {
    Collation.Le(a.counselDate, b.counselDate)
  }

  lemma EarlierFirstOrder()
    ensures TotalPreorder(EarlierFirst)
  {
    Collation.LeIsTotalOrder();
  }

  /** the records the NEIS export lists, in the order it lists them */
  function NeisOrder(ss: seq<Student>, rs: seq<Record>): (r: seq<Record>)
    ensures multiset(r) == multiset(Joined(ss, rs, RecordOwner)) && |r| == |Joined(ss, rs, RecordOwner)|
    ensures forall i, j :: 0 <= i < j < |r| ==> Collation.Le(r[i].counselDate, r[j].counselDate)
  {
    EarlierFirstOrder();
    SortBy(Joined(ss, rs, RecordOwner), EarlierFirst)
  }

  /** Under the foreign key the NEIS export lists every record. */
  lemma NeisOrderCoversAll(ss: seq<Student>, rs: seq<Record>, lastStudentId: nat, lastRecordId: nat, cols: seq<string>)
    requires ValidTables(ss, rs, lastStudentId, lastRecordId, cols)
    ensures multiset(NeisOrder(ss, rs)) == multiset(rs) && |NeisOrder(ss, rs)| == |rs|
  {
    JoinKeepsAll(ss, rs, RecordId, RecordOwner, lastRecordId);
  }

  // ---------------------------------------------------------------------------

  class Database {
    var students: seq<Student>
    var records: seq<Record>
    /** the AUTOINCREMENT counters of the two tables (sqlite_sequence) */
    var lastStudentId: nat
    var lastRecordId: nat
    /** the columns of counseling_records, as PRAGMA table_info lists them */
    var recordColumns: seq<string>

    ghost predicate Valid()
      reads this
    {
      ValidTables(students, records, lastStudentId, lastRecordId, recordColumns)
    }

    /** whether statements naming cr.category can run */
    predicate HasCategory()
      reads this
    {
      "category" in recordColumns
    }

    /** init_database on a new file: create_tables makes both tables empty, and
        update_schema then finds the category column present */
    constructor ()
      ensures Valid() && HasCategory()
      ensures students == [] && records == [] && lastStudentId == 0 && lastRecordId == 0
      ensures recordColumns == CreatedColumns
    {
      students, records := [], [];
      lastStudentId, lastRecordId := 0, 0;
      recordColumns := CreatedColumns;
    }

    /** init_database on a file written by database.py: create_tables finds both
        tables and leaves them, update_schema adds the category column */
    constructor Upgrade(legacy: LegacyDb.Database, fault: bool)
      requires legacy.Valid()
      ensures Valid()
      ensures students == legacy.students && records == MapSeq(legacy.records, Migrate)
      ensures lastStudentId == legacy.lastStudentId && lastRecordId == legacy.lastRecordId
      ensures recordColumns == if fault then LegacyDb.Columns else AddCategoryColumn(LegacyDb.Columns)
    {
      MigrateKeepsValid(legacy.students, legacy.records, legacy.lastStudentId, legacy.lastRecordId);
      students, records := legacy.students, MapSeq(legacy.records, Migrate);
      lastStudentId, lastRecordId := legacy.lastStudentId, legacy.lastRecordId;
      recordColumns := LegacyDb.Columns;
      new;
      UpdateSchema(fault);
    }

    /** update_schema: adds the category column when it is missing; a second run
        changes nothing */
    method UpdateSchema(fault: bool)
      requires Valid()
      modifies this
      ensures Valid()
      ensures recordColumns == if fault then old(recordColumns) else AddCategoryColumn(old(recordColumns))
      ensures !fault ==> HasCategory()
      ensures old(HasCategory()) ==> recordColumns == old(recordColumns)
      ensures students == old(students) && records == old(records)
      ensures lastStudentId == old(lastStudentId) && lastRecordId == old(lastRecordId)
    {
      if !fault && "category" !in recordColumns {
        recordColumns := recordColumns + ["category"];
      }
    }

    /** add_student: fails on a name already in the table (UNIQUE), otherwise
        inserts the name with the info fields, '' for each missing one */
    method AddStudent(name: string, info: Info, now: string, fault: bool) returns (ok: bool)
      requires Valid()
      modifies this
      ensures Valid()
      ensures ok <==> !fault && IndexOfName(old(students), name).None?
      ensures ok ==> students == old(students) + [NewStudent(old(lastStudentId) + 1, name, info, now)]
      ensures ok ==> lastStudentId == old(lastStudentId) + 1
      ensures !ok ==> students == old(students) && lastStudentId == old(lastStudentId)
      ensures records == old(records) && lastRecordId == old(lastRecordId) && recordColumns == old(recordColumns)
    {
      if fault || IndexOfName(students, name).Some? {
        return false;
      }
      var s := NewStudent(lastStudentId + 1, name, info, now);
      InsertStudentKeepsValid(students, lastStudentId, s, records, RecordId, RecordOwner, lastRecordId);
      students := students + [s];
      lastStudentId := lastStudentId + 1;
      ok := true;
    }

    /** update_student: refuses an absent or empty name before touching the file;
        a name held by another row violates UNIQUE; otherwise row id, if it
        exists, gets the seven fields and a new updated_at */
    method UpdateStudent(id: int, info: Info, now: string, fault: bool) returns (ok: bool)
      requires Valid()
      modifies this
      ensures Valid()
      ensures ok <==> && NameKey in info && info[NameKey] != "" && !fault
                      && !NameHeldByOther(old(students), id, info[NameKey])
                      && IndexOfId(old(students), id).Some?
      ensures ok ==>
        var k := IndexOfId(old(students), id).value;
        students == old(students)[k := Rewritten(old(students)[k], info[NameKey], info, now)]
      ensures !ok ==> students == old(students)
      ensures lastStudentId == old(lastStudentId)
      ensures records == old(records) && lastRecordId == old(lastRecordId) && recordColumns == old(recordColumns)
    {
      var updatedName := Lookup(info, NameKey);
      if updatedName.None? || updatedName.value == "" {
        return false;
      }
      if fault || NameHeldByOther(students, id, updatedName.value) {
        return false;
      }
      match IndexOfId(students, id)
      case None =>
        ok := false;
      case Some(k) =>
        var s := Rewritten(students[k], updatedName.value, info, now);
        RewriteStudentKeepsValid(students, lastStudentId, k, s, records, RecordId, RecordOwner, lastRecordId);
        students := students[k := s];
        ok := true;
    }

    /** delete_student: removes the student with that name and, by ON DELETE
        CASCADE, every record of that student */
    method DeleteStudent(name: string, fault: bool) returns (ok: bool)
      requires Valid()
      modifies this
      ensures Valid()
      ensures ok <==> !fault && IndexOfName(old(students), name).Some?
      ensures ok ==>
        var k := IndexOfName(old(students), name).value;
        && students == RemoveAt(old(students), k)
        && records == Cascade(old(records), RecordOwner, old(students)[k].id)
      ensures !ok ==> students == old(students) && records == old(records)
      ensures lastStudentId == old(lastStudentId) && lastRecordId == old(lastRecordId)
      ensures recordColumns == old(recordColumns)
    {
      if fault {
        return false;
      }
      match IndexOfName(students, name)
      case None =>
        ok := false;
      case Some(k) =>
        DeleteCascadeKeepsValid(students, lastStudentId, k, records, RecordId, RecordOwner, lastRecordId);
        records := Cascade(records, RecordOwner, students[k].id);
        students := RemoveAt(students, k);
        ok := true;
    }

    /** get_student and get_student_by_name: the row with that name, None when there is none */
    function GetStudent(name: string, fault: bool): (r: Option<StudentView>)
      reads this
      requires Valid()
      ensures fault ==> r.None?
      ensures !fault ==> r == FindByName(students, name)
    {
      if fault then None else FindByName(students, name)
    }

    /** get_student_by_id: the row with that id, None when there is none */
    function GetStudentById(id: int, fault: bool): (r: Option<StudentView>)
      reads this
      requires Valid()
      ensures fault ==> r.None?
      ensures !fault ==> r == FindById(students, id)
    {
      if fault then None else FindById(students, id)
    }

    /** get_all_students: every name, ascending */
    function GetAllStudents(fault: bool): (r: seq<string>)
      reads this
      requires Valid()
      ensures fault ==> r == []
      ensures !fault ==> r == NamesInOrder(students)
    {
      if fault then [] else NamesInOrder(students)
    }

    /** add_counsel_record: looks the student up by name; an unknown name inserts
        nothing, otherwise one record with the five payload fields is appended */
    method AddCounselRecord(name: string, p: Payload, now: string, fault: bool) returns (ok: bool)
      requires Valid()
      modifies this
      ensures Valid()
      ensures ok <==> !fault && IndexOfName(old(students), name).Some? && old(HasCategory())
      ensures ok ==>
        var sid := old(students)[IndexOfName(old(students), name).value].id;
        && records == old(records) + [Record(old(lastRecordId) + 1, sid, p.counselDate, p.target, p.counselMethod, Some(p.category), p.content, now)]
        && lastRecordId == old(lastRecordId) + 1
      ensures !ok ==> records == old(records) && lastRecordId == old(lastRecordId)
      ensures students == old(students) && lastStudentId == old(lastStudentId) && recordColumns == old(recordColumns)
    {
      if fault {
        return false;
      }
      match IndexOfName(students, name)
      case None =>
        ok := false;
      case Some(k) =>
        if !HasCategory() {
          return false;
        }
        var r := Record(lastRecordId + 1, students[k].id, p.counselDate, p.target, p.counselMethod, Some(p.category), p.content, now);
        InsertRecordKeepsValid(students, records, r, RecordId, RecordOwner, lastRecordId);
        records := records + [r];
        lastRecordId := lastRecordId + 1;
        ok := true;
    }

    /** get_counsel_records: the student's records, most recent first */
    function GetCounselRecords(name: string, fault: bool): (r: seq<RecordView>)
      reads this
      requires Valid()
      ensures fault || !HasCategory() ==> r == []
      ensures !fault && HasCategory() ==> r == RecordsOf(students, records, name)
    {
      if fault || !HasCategory() then [] else RecordsOf(students, records, name)
    }

    /** get_counsel_record: the record with that id, None when there is none */
    function GetCounselRecord(id: int, fault: bool): (r: Option<RecordView>)
      reads this
      requires Valid()
      ensures r.Some? <==> !fault && HasCategory() && exists k :: 0 <= k < |records| && records[k].id == id
      ensures r.Some? ==> exists k :: 0 <= k < |records| && records[k].id == id && r.value == ToView(records[k])
    {
      if fault || !HasCategory() then None
      else match IndexOf(records, RecordId, id)
        case Some(k) => Some(ToView(records[k]))
        case None => None
    }

    /** update_counsel_record: rewrites the five payload fields of row id; reports
        success whether or not such a row exists */
    method UpdateCounselRecord(id: int, p: Payload, fault: bool) returns (ok: bool)
      requires Valid()
      modifies this
      ensures Valid()
      ensures ok <==> !fault && HasCategory()
      ensures ok && IndexOf(old(records), RecordId, id).Some? ==>
        var k := IndexOf(old(records), RecordId, id).value;
        records == old(records)[k := old(records)[k].(counselDate := p.counselDate, target := p.target,
          counselMethod := p.counselMethod, category := Some(p.category), content := p.content)]
      ensures !ok || IndexOf(old(records), RecordId, id).None? ==> records == old(records)
      ensures students == old(students) && lastStudentId == old(lastStudentId) && lastRecordId == old(lastRecordId)
      ensures recordColumns == old(recordColumns)
    {
      if fault || !HasCategory() {
        return false;
      }
      ok := true;
      match IndexOf(records, RecordId, id)
      case None =>
      case Some(k) =>
        var r := records[k].(counselDate := p.counselDate, target := p.target,
          counselMethod := p.counselMethod, category := Some(p.category), content := p.content);
        RewriteRecordKeepsValid(students, records, k, r, RecordId, RecordOwner, lastRecordId);
        records := records[k := r];
    }

    /** delete_counsel_record_by_id: reports whether a row was removed */
    method DeleteCounselRecordById(id: int, fault: bool) returns (ok: bool)
      requires Valid()
      modifies this
      ensures Valid()
      ensures ok <==> !fault && IndexOf(old(records), RecordId, id).Some?
      ensures ok ==> records == RemoveAt(old(records), IndexOf(old(records), RecordId, id).value)
      ensures !ok ==> records == old(records)
      ensures students == old(students) && lastStudentId == old(lastStudentId) && lastRecordId == old(lastRecordId)
      ensures recordColumns == old(recordColumns)
    {
      if fault {
        return false;
      }
      match IndexOf(records, RecordId, id)
      case None =>
        ok := false;
      case Some(k) =>
        DeleteRecordKeepsValid(students, records, k, RecordId, RecordOwner, lastRecordId);
        records := RemoveAt(records, k);
        ok := true;
    }

    /** export_counseling_to_csv_for_neis: the NEIS header, then one 16-column row
        per record in ascending counsel_date order */
    function ExportCounselingToCsvForNeis(dbFault: bool, ioFault: bool): (r: Option<Csv.Table>)
      reads this
      requires Valid()
      ensures r.Some? <==> !dbFault && !ioFault && HasCategory()
      ensures r.Some? ==> r.value == [NeisHeader] + MapSeq(NeisOrder(students, records), NeisRow)
      ensures r.Some? ==> |r.value| == |records| + 1
    {
      if dbFault || !HasCategory() then None
      else
        JoinKeepsAll(students, records, RecordId, RecordOwner, lastRecordId);
        var rows := MapSeq(NeisOrder(students, records), NeisRow);
        assert |rows| == |records|;
        Csv.WriteCsv(NeisHeader, rows, ioFault)
    }

    /** export_to_csv: both sections in one file */
    function ExportToCsv(dbFault: bool, ioFault: bool): (r: Option<Csv.Table>)
      reads this
      requires Valid()
      ensures r.Some? <==> !dbFault && !ioFault && HasCategory()
      ensures r.Some? ==>
        Csv.ReadSections(r.value) == Some((StudentHeader, StudentRows(students), RecordHeader, RecordRows(students, records)))
      ensures r.Some? ==>
        r.value == Csv.TwoSections(StudentHeader, StudentRows(students), RecordHeader, RecordRows(students, records))
    {
      if dbFault || ioFault || !HasCategory() then None
      else
        var studentRows := StudentRows(students);
        Csv.ReadTwoSections(StudentHeader, studentRows, RecordHeader, RecordRows(students, records));
        Some(Csv.TwoSections(StudentHeader, studentRows, RecordHeader, RecordRows(students, records)))
    }

    /** export_students_to_csv: the student section alone; it does not read category */
    function ExportStudentsToCsv(dbFault: bool, ioFault: bool): (r: Option<Csv.Table>)
      reads this
      requires Valid()
      ensures r.Some? <==> !dbFault && !ioFault
      ensures r.Some? ==> r.value == [StudentHeader] + StudentRows(students)
    {
      if dbFault then None else Csv.WriteCsv(StudentHeader, StudentRows(students), ioFault)
    }

    /** export_counseling_to_csv: the record section alone */
    function ExportCounselingToCsv(dbFault: bool, ioFault: bool): (r: Option<Csv.Table>)
      reads this
      requires Valid()
      ensures r.Some? <==> !dbFault && !ioFault && HasCategory()
      ensures r.Some? ==> r.value == [RecordHeader] + RecordRows(students, records)
    {
      if dbFault || !HasCategory() then None else Csv.WriteCsv(RecordHeader, RecordRows(students, records), ioFault)
    }
  }
}
