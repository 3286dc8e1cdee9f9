/** The row lists the exports hand to Python's csv.writer. A Row is one
    writerow call; an empty Row is the blank line between the two sections of a
    full export. Quoting, the byte-order mark and the file itself are not part of
    this model. */
module Csv {
  import opened Wrappers
  import opened Sequences
  import Collation

  type Row = seq<string>
  type Table = seq<Row>

  const StudentMarker: Row := ["=== 학생 정보 ==="]
  const RecordMarker: Row := ["=== 상담 기록 ==="]

  /** _write_csv: the header row, then the data rows; None when the write raises
      an I/O error (what the truncated file then holds is not modelled) */
  function WriteCsv(headers: Row, data: seq<Row>, ioFault: bool): (r: Option<Table>)
    ensures r.Some? <==> !ioFault
    ensures r.Some? ==> |r.value| == |data| + 1 && r.value[0] == headers && r.value[1..] == data
  {
    if ioFault then None else Some([headers] + data)
  }

  /** The layout of export_to_csv: a marker and a header above the student rows,
      a blank row, a second marker and a header above the record rows. */
  function TwoSections(h1: Row, d1: seq<Row>, h2: Row, d2: seq<Row>): (r: Table)
    ensures |r| == |d1| + |d2| + 5
    ensures r[0] == StudentMarker && r[1] == h1 && r[2..2 + |d1|] == d1
    ensures r[2 + |d1|] == [] && r[3 + |d1|] == RecordMarker && r[4 + |d1|] == h2
    ensures r[5 + |d1|..] == d2
  {
    [StudentMarker, h1] + d1 + [[], RecordMarker, h2] + d2
  }

  /** the rows before the first blank row, and the rows after it (None when no row is blank) */
  function SplitAtBlank(t: Table): (r: (Table, Option<Table>))
    ensures r.1.None? ==> r.0 == t && forall i :: 0 <= i < |t| ==> t[i] != []
    ensures r.1.Some? ==> t == r.0 + [[]] + r.1.value && forall i :: 0 <= i < |r.0| ==> r.0[i] != []
  {
    if t == [] then ([], None)
    else if t[0] == [] then ([], Some(t[1..]))
    else
      var (before, after) := SplitAtBlank(t[1..]);
      ([t[0]] + before, after)
  }

  /** Reads a file laid out by TwoSections back into its two headers and two row blocks. */
  function ReadSections(t: Table): Option<(Row, seq<Row>, Row, seq<Row>)> {
    if |t| < 2 || t[0] != StudentMarker then None
    else
      match SplitAtBlank(t[2..])
      case (d1, Some(rest)) =>
        if |rest| < 2 || rest[0] != RecordMarker then None
        else Some((t[1], d1, rest[1], rest[2..]))
      case (_, None) => None
  }

  lemma {:induction false} SplitAtFirstBlank(d: Table, rest: Table)
    requires forall i :: 0 <= i < |d| ==> d[i] != []
    ensures SplitAtBlank(d + [[]] + rest) == (d, Some(rest))
  {
    if d == [] {
      assert d + [[]] + rest == [[]] + rest;
    } else {
      assert (d + [[]] + rest)[1..] == d[1..] + [[]] + rest;
      SplitAtFirstBlank(d[1..], rest);
      assert [d[0]] + d[1..] == d;
    }
  }

  /** Reading a full export back recovers both headers and both row blocks,
      provided no student row is blank. */
  lemma ReadTwoSections(h1: Row, d1: seq<Row>, h2: Row, d2: seq<Row>)
    requires forall i :: 0 <= i < |d1| ==> d1[i] != []
    ensures ReadSections(TwoSections(h1, d1, h2, d2)) == Some((h1, d1, h2, d2))
  {
    var t := TwoSections(h1, d1, h2, d2);
    assert t[2..] == d1 + [[]] + ([RecordMarker, h2] + d2);
    SplitAtFirstBlank(d1, [RecordMarker, h2] + d2);
  }

  /** Conversely, a file ReadSections accepts is exactly the TwoSections layout of what it read. */
  lemma ReadSectionsOnlyOfTwoSections(t: Table, h1: Row, d1: seq<Row>, h2: Row, d2: seq<Row>)
    requires ReadSections(t) == Some((h1, d1, h2, d2))
    ensures t == TwoSections(h1, d1, h2, d2)
  {
    var split := SplitAtBlank(t[2..]);
    var rest := split.1.value;
    assert h1 == t[1] && d1 == split.0 && h2 == rest[1] && d2 == rest[2..];
    assert t[2..] == d1 + [[]] + rest;
    assert rest == [RecordMarker, h2] + d2;
    calc {
      t;
      [t[0], t[1]] + t[2..];
      [StudentMarker, h1] + (d1 + [[]] + ([RecordMarker, h2] + d2));
      [StudentMarker, h1] + d1 + [[], RecordMarker, h2] + d2;
    }
  }

  /** a reordering of rows of width w has rows of width w */
  lemma PermutationKeepsWidth(rows: seq<Row>, r: seq<Row>, w: nat)
    requires multiset(r) == multiset(rows)
    requires forall i :: 0 <= i < |rows| ==> |rows[i]| == w
    ensures forall i :: 0 <= i < |r| ==> |r[i]| == w
  {
    forall i | 0 <= i < |r| ensures |r[i]| == w {
      assert r[i] in multiset(rows);
    }
  }

  /** the first column of a row, "" for the blank row */
  function Head(row: Row): string {
    if row == [] then "" else row[0]
  }

  /** the second column of a row, "" when there is none */
  function Second(row: Row): string {
    if |row| < 2 then "" else row[1]
  }

  /** ORDER BY on the first selected column */
  predicate FirstColumnLe(a: Row, b: Row) {
    Collation.Le(Head(a), Head(b))
  }

  /** ORDER BY on the first selected column, then the second */
  predicate FirstTwoColumnsLe(a: Row, b: Row) {
    || Collation.Lt(Head(a), Head(b))
    || (Head(a) == Head(b) && Collation.Le(Second(a), Second(b)))
  }

  lemma FirstColumnOrder()
    ensures TotalPreorder(FirstColumnLe)
  {
    Collation.LeIsTotalOrder();
  }

  lemma FirstTwoColumnsOrder()
    ensures TotalPreorder(FirstTwoColumnsLe)
  {
    Collation.LeIsTotalOrder();
  }
}
