/** The key structure of the counseling_records table, shared by both record
    layouts (utils/database.py:193-203, database.py:149-158): an AUTOINCREMENT id
    and a student_id that REFERENCES students (id) ON DELETE CASCADE, with foreign
    keys switched on for every connection. A record layout is given by the two
    projections id and owner. */
module ChildTable {
  import opened Sequences
  import opened StudentTable

  /** some student has this id */
  ghost predicate HasStudent(ss: seq<Student>, sid: int) {
    exists i :: 0 <= i < |ss| && ss[i].id == sid
  }

  /** what the schema guarantees of the records table: ids in rowid order, never
      above the AUTOINCREMENT counter lastId, and no record without its student */
  ghost predicate ValidRecords<T>(ss: seq<Student>, rs: seq<T>, id: T -> int, owner: T -> int, lastId: nat) {
    && StrictlyIncreasing(rs, id)
    && (forall k :: 0 <= k < |rs| ==> 0 < id(rs[k]) <= lastId)
    && (forall k :: 0 <= k < |rs| ==> HasStudent(ss, owner(rs[k])))
  }

  /** the records ON DELETE CASCADE keeps when the student with id sid is deleted */
  function Cascade<T>(rs: seq<T>, owner: T -> int, sid: int): (r: seq<T>)
    ensures forall k :: 0 <= k < |r| ==> r[k] in rs && owner(r[k]) != sid
    ensures forall k :: 0 <= k < |rs| && owner(rs[k]) != sid ==> rs[k] in r
  {
    Filter(rs, (x: T) => owner(x) != sid)
  }

  /** the records of the student with id sid (JOIN ... WHERE s.name = ?) */
  function OwnedBy<T>(rs: seq<T>, owner: T -> int, sid: int): (r: seq<T>)
    ensures forall k :: 0 <= k < |r| ==> r[k] in rs && owner(r[k]) == sid
    ensures forall k :: 0 <= k < |rs| && owner(rs[k]) == sid ==> rs[k] in r
  {
    Filter(rs, (x: T) => owner(x) == sid)
  }

  /** the rows of s except the one at position k */
  function RemoveAt<T>(s: seq<T>, k: nat): (r: seq<T>)
    requires k < |s|
    ensures |r| == |s| - 1
    ensures forall i :: 0 <= i < k ==> r[i] == s[i]
    ensures forall i :: k <= i < |r| ==> r[i] == s[i + 1]
  {
    s[..k] + s[k + 1..]
  }

  lemma RemoveAtKeepsIncreasing<T>(s: seq<T>, key: T -> int, k: nat)
    requires k < |s| && StrictlyIncreasing(s, key)
    ensures StrictlyIncreasing(RemoveAt(s, k), key)
  {
    var r := RemoveAt(s, k);
    forall i, j | 0 <= i < j < |r| ensures key(r[i]) < key(r[j]) {
      var i' := if i < k then i else i + 1;
      var j' := if j < k then j else j + 1;
      assert r[i] == s[i'] && r[j] == s[j'];
    }
  }

  /** Inserting a student with a fresh id and a name no row has keeps the students
      table valid, and every record keeps its student. */
  lemma InsertStudentKeepsValid<T>(ss: seq<Student>, lastId: nat, s: Student, rs: seq<T>, id: T -> int, owner: T -> int, lastRecord: nat)
    requires ValidStudents(ss, lastId)
    requires ValidRecords(ss, rs, id, owner, lastRecord)
    requires s.id == lastId + 1
    requires IndexOfName(ss, s.name).None?
    ensures ValidStudents(ss + [s], lastId + 1)
    ensures ValidRecords(ss + [s], rs, id, owner, lastRecord)
  {
    var ss' := ss + [s];
    forall k | 0 <= k < |rs| ensures HasStudent(ss', owner(rs[k])) {
      var i :| 0 <= i < |ss| && ss[i].id == owner(rs[k]);
      assert ss'[i] == ss[i];
    }
  }

  /** Rewriting row k without touching its id, to a name no other row has, keeps
      both tables valid. */
  lemma RewriteStudentKeepsValid<T>(ss: seq<Student>, lastId: nat, k: nat, s: Student, rs: seq<T>, id: T -> int, owner: T -> int, lastRecord: nat)
    requires ValidStudents(ss, lastId)
    requires ValidRecords(ss, rs, id, owner, lastRecord)
    requires k < |ss| && s.id == ss[k].id
    requires !NameHeldByOther(ss, s.id, s.name)
    ensures ValidStudents(ss[k := s], lastId)
    ensures ValidRecords(ss[k := s], rs, id, owner, lastRecord)
  {
    var ss' := ss[k := s];
    forall i, j | 0 <= i < j < |ss'| ensures ss'[i].name != ss'[j].name {
      if i == k {
        assert ss[j].id != s.id;
      } else if j == k {
        assert ss[i].id != s.id;
      }
    }
    forall r | 0 <= r < |rs| ensures HasStudent(ss', owner(rs[r])) {
      var i :| 0 <= i < |ss| && ss[i].id == owner(rs[r]);
      assert ss'[i].id == ss[i].id;
    }
  }

  /** Deleting student k and cascading to its records leaves no record without
      its student and keeps both tables valid. */
  lemma DeleteCascadeKeepsValid<T>(ss: seq<Student>, lastId: nat, k: nat, rs: seq<T>, id: T -> int, owner: T -> int, lastRecord: nat)
    requires ValidStudents(ss, lastId)
    requires ValidRecords(ss, rs, id, owner, lastRecord)
    requires k < |ss|
    ensures ValidStudents(RemoveAt(ss, k), lastId)
    ensures ValidRecords(RemoveAt(ss, k), Cascade(rs, owner, ss[k].id), id, owner, lastRecord)
  {
    RemoveStudentKeepsValid(ss, lastId, k);
    CascadeKeepsOwners(ss, k, rs, id, owner, lastRecord);
  }

  lemma RemoveStudentKeepsValid(ss: seq<Student>, lastId: nat, k: nat)
    requires ValidStudents(ss, lastId) && k < |ss|
    ensures ValidStudents(RemoveAt(ss, k), lastId)
  {
    var ss' := RemoveAt(ss, k);
    RemoveAtKeepsIncreasing(ss, StudentId, k);
    forall i, j | 0 <= i < j < |ss'| ensures ss'[i].name != ss'[j].name {
      var i' := if i < k then i else i + 1;
      var j' := if j < k then j else j + 1;
      assert ss'[i] == ss[i'] && ss'[j] == ss[j'];
    }
  }

  lemma CascadeKeepsOwners<T>(ss: seq<Student>, k: nat, rs: seq<T>, id: T -> int, owner: T -> int, lastRecord: nat)
    requires StrictlyIncreasing(ss, StudentId) && k < |ss|
    requires ValidRecords(ss, rs, id, owner, lastRecord)
    ensures ValidRecords(RemoveAt(ss, k), Cascade(rs, owner, ss[k].id), id, owner, lastRecord)
  {
    var ss' := RemoveAt(ss, k);
    var rs' := Cascade(rs, owner, ss[k].id);
    FilterKeepsIncreasing(rs, (x: T) => owner(x) != ss[k].id, id);
    forall r | 0 <= r < |rs'| ensures HasStudent(ss', owner(rs'[r])) && 0 < id(rs'[r]) <= lastRecord {
      var q :| 0 <= q < |rs| && rs[q] == rs'[r];
      var i :| 0 <= i < |ss| && ss[i].id == owner(rs[q]);
      assert i != k;
      var i' := if i < k then i else i - 1;
      assert ss'[i'] == ss[i];
    }
  }

  /** Appending a record with the next id for an existing student keeps the
      records table valid. */
  lemma InsertRecordKeepsValid<T>(ss: seq<Student>, rs: seq<T>, x: T, id: T -> int, owner: T -> int, lastRecord: nat)
    requires ValidRecords(ss, rs, id, owner, lastRecord)
    requires id(x) == lastRecord + 1
    requires HasStudent(ss, owner(x))
    ensures ValidRecords(ss, rs + [x], id, owner, lastRecord + 1)
  {
  }

  /** Rewriting record k without touching its id or its student keeps the records
      table valid. */
  lemma RewriteRecordKeepsValid<T>(ss: seq<Student>, rs: seq<T>, k: nat, x: T, id: T -> int, owner: T -> int, lastRecord: nat)
    requires ValidRecords(ss, rs, id, owner, lastRecord)
    requires k < |rs| && id(x) == id(rs[k]) && owner(x) == owner(rs[k])
    ensures ValidRecords(ss, rs[k := x], id, owner, lastRecord)
  {
  }

  /** Deleting record k keeps the records table valid. */
  lemma DeleteRecordKeepsValid<T>(ss: seq<Student>, rs: seq<T>, k: nat, id: T -> int, owner: T -> int, lastRecord: nat)
    requires ValidRecords(ss, rs, id, owner, lastRecord)
    requires k < |rs|
    ensures ValidRecords(ss, RemoveAt(rs, k), id, owner, lastRecord)
  {
    RemoveAtKeepsIncreasing(rs, id, k);
  }

  /** the records an inner JOIN with students keeps */
  function Joined<T>(ss: seq<Student>, rs: seq<T>, owner: T -> int): (r: seq<T>)
    ensures forall k :: 0 <= k < |r| ==> r[k] in rs && IndexOfId(ss, owner(r[k])).Some?
    ensures forall k :: 0 <= k < |rs| && IndexOfId(ss, owner(rs[k])).Some? ==> rs[k] in r
  {
    Filter(rs, (x: T) => IndexOfId(ss, owner(x)).Some?)
  }

  /** With the foreign key enforced, the JOIN drops no record. */
  lemma {:induction false} JoinKeepsAll<T>(ss: seq<Student>, rs: seq<T>, id: T -> int, owner: T -> int, lastRecord: nat)
    requires ValidRecords(ss, rs, id, owner, lastRecord)
    ensures Joined(ss, rs, owner) == rs
  {
    if rs != [] {
      ValidRecordsTail(ss, rs, id, owner, lastRecord);
      JoinKeepsAll(ss, rs[1..], id, owner, lastRecord);
      var i :| 0 <= i < |ss| && ss[i].id == owner(rs[0]);
      assert IndexOfId(ss, owner(rs[0])).Some?;
      assert rs == [rs[0]] + rs[1..];
    }
  }

  lemma ValidRecordsTail<T>(ss: seq<Student>, rs: seq<T>, id: T -> int, owner: T -> int, lastRecord: nat)
    requires ValidRecords(ss, rs, id, owner, lastRecord) && rs != []
    ensures ValidRecords(ss, rs[1..], id, owner, lastRecord)
  {
    forall i, j | 0 <= i < j < |rs[1..]| ensures id(rs[1..][i]) < id(rs[1..][j]) {
      assert rs[1..][i] == rs[i + 1] && rs[1..][j] == rs[j + 1];
    }
  }

  /** the name of a record's student, "" when there is none (never, under ValidRecords) */
  function OwnerName(ss: seq<Student>, sid: int): (n: string)
    ensures StrictlyIncreasing(ss, StudentId) ==> forall i :: 0 <= i < |ss| && ss[i].id == sid ==> n == ss[i].name
  {
    match IndexOfId(ss, sid)
    case Some(i) => ss[i].name
    case None => ""
  }
}
