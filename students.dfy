/** The students table. Both versions of the data-access layer declare it alike
    (utils/database.py:179-190, database.py:135-146): an AUTOINCREMENT id, a
    UNIQUE NOT NULL name, six optional text fields and two timestamps. This module
    holds the row type, the lookups both versions run against it and the rows
    its exports produce. */
module StudentTable {
  import opened Wrappers
  import opened Sequences
  import Collation
  import Csv

  /** The dict the forms pass in, keyed by the Korean field labels. */
  type Info = map<string, string>

  const NameKey := "이름"
  const PhoneKey := "연락처"
  const GenderKey := "성별"
  const BirthDateKey := "생년월일"
  const Guardian1Key := "보호자 연락처1"
  const Guardian2Key := "보호자 연락처2"
  const MemoKey := "메모"

  /** info.get(key, ''): a missing field is stored as the empty string */
  function Get(info: Info, key: string): (v: string)
    ensures key in info ==> v == info[key]
    ensures key !in info ==> v == ""
  {
    if key in info then info[key] else ""
  }

  /** info.get(key): None when the key is missing */
  function Lookup(info: Info, key: string): (v: Option<string>)
    ensures v.Some? <==> key in info
    ensures v.Some? ==> v.value == info[key]
  {
    if key in info then Some(info[key]) else None
  }

  datatype Student = Student(
    id: nat,
    name: string,
    phone: string,
    gender: string,
    birthDate: string,
    guardianPhone1: string,
    guardianPhone2: string,
    memo: string,
    createdAt: string,
    updatedAt: string)

  function StudentId(s: Student): int { s.id }

  /** The row add_student inserts: the given name, the six info fields (empty
      when missing) and both timestamps at the insert time. */
  function NewStudent(id: nat, name: string, info: Info, now: string): (r: Student)
    ensures r.id == id && r.name == name
    ensures r.createdAt == now && r.updatedAt == now
  {
    Student(id, name, Get(info, PhoneKey), Get(info, GenderKey), Get(info, BirthDateKey),
            Get(info, Guardian1Key), Get(info, Guardian2Key), Get(info, MemoKey), now, now)
  }

  /** The row after update_student's UPDATE: seven fields rewritten, updated_at
      bumped; the id and created_at are kept. */
  function Rewritten(s: Student, name: string, info: Info, now: string): (r: Student)
    ensures r.id == s.id && r.createdAt == s.createdAt
    ensures r.name == name && r.updatedAt == now
  {
    Student(s.id, name, Get(info, PhoneKey), Get(info, GenderKey), Get(info, BirthDateKey),
            Get(info, Guardian1Key), Get(info, Guardian2Key), Get(info, MemoKey), s.createdAt, now)
  }

  ghost predicate UniqueNames(ss: seq<Student>) {
    forall i, j :: 0 <= i < j < |ss| ==> ss[i].name != ss[j].name
  }

  /** What the schema guarantees of the students table: ids in rowid order, never
      above the table's AUTOINCREMENT counter lastId, and names unique. */
  ghost predicate ValidStudents(ss: seq<Student>, lastId: nat) {
    && StrictlyIncreasing(ss, StudentId)
    && (forall i :: 0 <= i < |ss| ==> 0 < ss[i].id <= lastId)
    && UniqueNames(ss)
  }

  function StudentName(s: Student): string { s.name }

  /** WHERE name = ?: the position of the row with that name */
  function IndexOfName(ss: seq<Student>, name: string): Option<nat> {
    IndexOf(ss, StudentName, name)
  }

  /** WHERE id = ?: the position of the row with that id */
  function IndexOfId(ss: seq<Student>, id: int): Option<nat> {
    IndexOf(ss, StudentId, id)
  }

  /** The UNIQUE constraint on name rejects an UPDATE of row id to name exactly
      when another row already has that name. */
  predicate NameHeldByOther(ss: seq<Student>, id: int, name: string) {
    exists i :: 0 <= i < |ss| && ss[i].name == name && ss[i].id != id
  }

  /** With unique names, the row the UNIQUE check runs into is the one WHERE name = ? finds. */
  lemma NameHeldByOtherAtIndex(ss: seq<Student>, id: int, name: string)
    requires UniqueNames(ss)
    ensures NameHeldByOther(ss, id, name) <==>
      IndexOfName(ss, name).Some? && ss[IndexOfName(ss, name).value].id != id
  {
    if NameHeldByOther(ss, id, name) {
      var i :| 0 <= i < |ss| && ss[i].name == name && ss[i].id != id;
      assert StudentName(ss[i]) == name;
      var k := IndexOfName(ss, name).value;
      assert ss[k].name == name;
      assert !(i < k);
      assert k == i;
    }
    if IndexOfName(ss, name).Some? && ss[IndexOfName(ss, name).value].id != id {
      var k := IndexOfName(ss, name).value;
      assert ss[k].name == name && ss[k].id != id;
    }
  }

  /** The dict get_student and get_student_by_id return: the row without its timestamps. */
  datatype StudentView = StudentView(
    id: nat,
    name: string,
    phone: string,
    gender: string,
    birthDate: string,
    guardianPhone1: string,
    guardianPhone2: string,
    memo: string)

  function View(s: Student): StudentView {
    StudentView(s.id, s.name, s.phone, s.gender, s.birthDate, s.guardianPhone1, s.guardianPhone2, s.memo)
  }

  /** get_student(name): the row with that name, if any */
  function FindByName(ss: seq<Student>, name: string): (r: Option<StudentView>)
    requires UniqueNames(ss)
    ensures r.Some? <==> exists i :: 0 <= i < |ss| && ss[i].name == name
    ensures forall i :: 0 <= i < |ss| && ss[i].name == name ==> r == Some(View(ss[i]))
  {
    match IndexOfName(ss, name)
    case Some(k) => Some(View(ss[k]))
    case None => None
  }

  /** get_student_by_id(id): the row with that id, if any */
  function FindById(ss: seq<Student>, id: int): (r: Option<StudentView>)
    requires StrictlyIncreasing(ss, StudentId)
    ensures r.Some? <==> exists i :: 0 <= i < |ss| && ss[i].id == id
    ensures forall i :: 0 <= i < |ss| && ss[i].id == id ==> r == Some(View(ss[i]))
  {
    match IndexOfId(ss, id)
    case Some(k) => Some(View(ss[k]))
    case None => None
  }

  /** the fields update_student and add_student take from info, as get_student returns them */
  function InfoView(id: nat, name: string, info: Info): StudentView {
    StudentView(id, name, Get(info, PhoneKey), Get(info, GenderKey), Get(info, BirthDateKey),
                Get(info, Guardian1Key), Get(info, Guardian2Key), Get(info, MemoKey))
  }

  /** After add_student inserts a new name, get_student finds that name with the
      given fields. */
  lemma FindAddedStudent(ss: seq<Student>, lastId: nat, name: string, info: Info, now: string)
    requires ValidStudents(ss, lastId) && IndexOfName(ss, name).None?
    ensures UniqueNames(ss + [NewStudent(lastId + 1, name, info, now)])
    ensures FindByName(ss + [NewStudent(lastId + 1, name, info, now)], name) == Some(InfoView(lastId + 1, name, info))
  {
    var ss' := ss + [NewStudent(lastId + 1, name, info, now)];
    assert ss'[|ss|].name == name;
  }

  /** After update_student rewrites row k, get_student_by_id finds that row's id
      with the new fields. */
  lemma FindRewrittenStudent(ss: seq<Student>, lastId: nat, k: nat, name: string, info: Info, now: string)
    requires ValidStudents(ss, lastId) && k < |ss|
    ensures StrictlyIncreasing(ss[k := Rewritten(ss[k], name, info, now)], StudentId)
    ensures FindById(ss[k := Rewritten(ss[k], name, info, now)], ss[k].id) == Some(InfoView(ss[k].id, name, info))
  {
    var ss' := ss[k := Rewritten(ss[k], name, info, now)];
    assert forall i :: 0 <= i < |ss| ==> ss'[i].id == ss[i].id;
    assert ss'[k].id == ss[k].id;
  }

  function Names(ss: seq<Student>): (r: seq<string>)
    ensures |r| == |ss| && forall i :: 0 <= i < |ss| ==> r[i] == ss[i].name
  {
    MapSeq(ss, StudentName)
  }

  /** SELECT name FROM students ORDER BY name: every name once, in strictly
      ascending BINARY order */
  function NamesInOrder(ss: seq<Student>): (r: seq<string>)
    requires UniqueNames(ss)
    ensures multiset(r) == multiset(Names(ss))
    ensures forall n :: n in r <==> exists i :: 0 <= i < |ss| && ss[i].name == n
    ensures forall i, j :: 0 <= i < j < |r| ==> Collation.Lt(r[i], r[j])
  {
    Collation.LeIsTotalOrder();
    var names := Names(ss);
    var r := SortBy(names, Collation.Le);
    PermutationKeepsDistinct(names, r);
    assert forall n :: n in r <==> n in multiset(names);
    r
  }

  /** the nine columns of a student in the CSV exports */
  function StudentRow(s: Student): (row: Csv.Row)
    ensures |row| == |StudentHeader| && row[0] == s.name
  {
    [s.name, s.phone, s.gender, s.birthDate, s.guardianPhone1, s.guardianPhone2, s.memo,
     s.createdAt, s.updatedAt]
  }

  const StudentHeader: Csv.Row :=
    ["이름", "연락처", "성별", "생년월일", "보호자연락처1", "보호자연락처2", "메모", "생성일시", "수정일시"]

  /** The student block of every export (utils/database.py:93-99, database.py:55-61):
      one row per student, ordered by name. */
  function StudentRows(ss: seq<Student>): (r: seq<Csv.Row>)
    ensures multiset(r) == multiset(MapSeq(ss, StudentRow))
    ensures forall i :: 0 <= i < |r| ==> |r[i]| == |StudentHeader|
    ensures forall i, j :: 0 <= i < j < |r| ==> Collation.Le(r[i][0], r[j][0])
  {
    Csv.FirstColumnOrder();
    var rows := MapSeq(ss, StudentRow);
    var r := SortBy(rows, Csv.FirstColumnLe);
    Csv.PermutationKeepsWidth(rows, r, |StudentHeader|);
    r
  }
}
