# Student counseling records: the data-access layer

This project models the SQLite data-access layer of a desktop app that teachers use to keep
counseling records. The store holds two tables:

- `students`: a unique name and six optional contact fields per student;
- `counseling_records`: dated counseling sessions, each belonging to one student.

The current layer is the class `Database` in `utils/database.py`. Its older copy in
`database.py` works on a schema without the `category` column. Both become Dafny classes. The
tables are `seq` fields in rowid order. Each table's AUTOINCREMENT counter is a `nat` field.
Every method that changes the tables keeps the schema's invariants, which `Valid()` states:

- names are unique;
- ids strictly increase and never exceed the table's counter, so an id is never reused;
- every record's `student_id` names an existing student, because foreign keys are on and
  deletes cascade.

Each operation states its exact boolean result and its whole new state. The exports are
functions that return the rows `csv.writer` would receive, together with the properties the
layout promises.

Modules:

- `Collation`: SQLite's BINARY text order, lexicographic on `seq<char>`, proved to be a total order.
- `Sequences`: `Filter` (a WHERE clause), `MapSeq` (a select list), `IndexOf` (`WHERE key = ?`)
  and `SortBy` (ORDER BY). `SortBy` is an insertion sort proved to return a sorted
  permutation of its input.
- `Csv`: `_write_csv`, the two-section layout of the full export, and a reader for that layout.
  A lemma proves the reader recovers the four blocks the layout was built from.
- `StudentTable`: the `students` table. It is declared the same way in both versions.
- `ChildTable`: the key structure of `counseling_records` (AUTOINCREMENT, the foreign key and
  ON DELETE CASCADE). It is written once for both record layouts, with a lemma for each insert,
  update and delete that keeps it valid.
- `CounselingDb`: `utils/database.py`, including `update_schema` and the NEIS export. NEIS is
  the Korean school-administration system.
- `LegacyDb`: `database.py`.

Effects outside the tables become parameters:

- `fault` stands for a `sqlite3.Error` raised during the call. The source then returns
  False, None or `[]` and commits nothing.
- `ioFault` stands for a failed file write.
- `now` stands for `CURRENT_TIMESTAMP`.

In the current layout, `recordColumns` lists the columns of `counseling_records`, as
`PRAGMA table_info` would report them. A statement that names `category` on a table without
that column fails like any other `sqlite3.Error`. `CounselingDb.Database.Upgrade` opens a file
written by `database.py`. Its records get a NULL category (`None`), and then `update_schema`
runs.

## Model

| member | source | states |
|---|---|---|
| Collation.LeIsTotalOrder | utils/database.py:399 | the text order ORDER BY uses is reflexive, total, transitive and antisymmetric |
| Sequences.SortBy | utils/database.py:446 | ORDER BY returns a permutation of the selected rows, sorted by the key |
| Sequences.Filter | utils/database.py:443-445 | WHERE keeps exactly the rows that satisfy the condition, and only rows of the table |
| Sequences.IndexOf | utils/database.py:410-413 | `WHERE key = ?` finds the first row with that key, and None exactly when no row has it |
| Sequences.PermutationKeepsDistinct | utils/database.py:181 | reordering a list of distinct names keeps them distinct |
| Csv.WriteCsv | utils/database.py:43-53 | the written table is the header row followed by the data rows; None (the call returns False) when the write fails |
| Csv.TwoSections | utils/database.py:113-121 | marker, header, student rows, empty row, marker, header, record rows, each at its position |
| Csv.ReadTwoSections | utils/database.py:113-121 | reading the two-section layout back recovers both headers and both row blocks |
| Csv.ReadSectionsOnlyOfTwoSections | utils/database.py:113-121 | conversely, every table that reads back as two sections is the two-section layout of what was read |
| Csv.FirstColumnLe | utils/database.py:97 | `ORDER BY name`: the first column in BINARY order |
| Csv.FirstTwoColumnsLe | utils/database.py:106 | `ORDER BY s.name, cr.counsel_date`: the first column, then the second on a tie, both in BINARY order |
| StudentTable.Get | utils/database.py:233-241 | a missing info field is stored as the empty string |
| StudentTable.Lookup | utils/database.py:257 | `info.get('이름')`: None exactly when the key is missing, otherwise its value |
| StudentTable.NewStudent | utils/database.py:227-241 | the row add_student inserts carries the given id and name, and both timestamps at the insert time |
| StudentTable.Rewritten | utils/database.py:262-283 | the row after update_student's UPDATE keeps its id and created_at, takes the new name, and updated_at becomes now |
| StudentTable.FindAddedStudent | utils/database.py:222-253 | after a new name is added, get_student finds it with exactly the given fields ('' for missing ones) |
| StudentTable.FindRewrittenStudent | utils/database.py:255-296 | after row k is rewritten, get_student_by_id finds its id with exactly the new fields |
| StudentTable.StudentRow | utils/database.py:94-96 | the nine-column select list, starting with the name |
| StudentTable.FindByName | utils/database.py:310-336 | get_student finds a row exactly when a student has that name, and returns that student's id and seven fields |
| StudentTable.FindById | utils/database.py:338-364 | get_student_by_id finds a row exactly when a student has that id, and returns that student's fields |
| StudentTable.UniqueNames | utils/database.py:181 | no two student rows share a name (`UNIQUE`) |
| StudentTable.ValidStudents | utils/database.py:180-181 | ids strictly increase in rowid order, are positive and never exceed the AUTOINCREMENT counter, and names are unique |
| StudentTable.NameHeldByOther | utils/database.py:181 | an UPDATE of row id to name violates UNIQUE exactly when another row has that name |
| StudentTable.NameHeldByOtherAtIndex | utils/database.py:181 | with unique names, that other row is the one `WHERE name = ?` finds, and its id differs |
| StudentTable.NamesInOrder | utils/database.py:394-403 | every student's name appears exactly once, in strictly ascending order |
| StudentTable.StudentRows | utils/database.py:93-99 | one nine-column row per student, ordered by name |
| ChildTable.ValidRecords | utils/database.py:193-203 | record ids strictly increase up to their AUTOINCREMENT counter, and every student_id names an existing student (the foreign key, enforced by utils/database.py:22) |
| ChildTable.Cascade | utils/database.py:202 | ON DELETE CASCADE keeps exactly the records of the other students |
| ChildTable.OwnedBy | utils/database.py:444-445 | the join on student id keeps exactly that student's records |
| ChildTable.Joined | utils/database.py:104-105 | the inner join keeps exactly the records whose student exists |
| ChildTable.JoinKeepsAll | utils/database.py:22 | with the foreign key enforced, the join drops no record |
| ChildTable.InsertStudentKeepsValid | utils/database.py:180-181 | a new student with the next id and an unused name keeps names unique and ids increasing |
| ChildTable.RewriteStudentKeepsValid | utils/database.py:181 | rewriting a student to a name no other row holds keeps the tables valid |
| ChildTable.DeleteCascadeKeepsValid | utils/database.py:202 | deleting a student together with its records leaves no record without its student |
| ChildTable.InsertRecordKeepsValid | utils/database.py:194 | a record with the next id for an existing student keeps the records table valid |
| ChildTable.RewriteRecordKeepsValid | utils/database.py:485-487 | rewriting a record's fields without touching its keys keeps the table valid |
| ChildTable.DeleteRecordKeepsValid | utils/database.py:512 | removing one record keeps the table valid |
| ChildTable.RemoveAt | utils/database.py:303 | `DELETE ... WHERE` on a unique key: the rows before position k unchanged, the rows after it shifted down by one |
| ChildTable.OwnerName | utils/database.py:102-105 | with ids unique (strictly increasing), s.name of the joined student |
| Sequences.FilterKeepsIncreasing | utils/database.py:180 | every subset of a table keeps its ids in increasing order |
| CounselingDb.ValidTables | utils/database.py:176-220 | both tables valid, and in a file whose record table lacks the category column every record's category is NULL |
| CounselingDb.AddCategoryColumnIdempotent | utils/database.py:216-217 | running the migration twice gives the same columns as running it once |
| CounselingDb.AddCategoryColumn | utils/database.py:209-220 | afterwards the columns include category; a table that already has it is left as it is |
| CounselingDb.Migrate | utils/database.py:217 | after ADD COLUMN an old row keeps its id and student_id, and its category is NULL |
| CounselingDb.MigrateKeepsExportRow | utils/database.py:101-107 | a migrated record exports as it did under the older layout, with an empty category column inserted before the content |
| CounselingDb.MigrateKeepsValid | utils/database.py:209-220 | a file written by the older layer stays valid after the added column gives every record a NULL category |
| CounselingDb.LaterFirst | utils/database.py:446 | `ORDER BY counsel_date DESC` in BINARY order |
| CounselingDb.RecordsOf | utils/database.py:436-455 | exactly the named student's records, most recent counsel_date first; none for an unknown name |
| CounselingDb.NullAsEmpty | utils/database.py:119-121 | csv.writer writes a NULL as the empty field and any other value as itself |
| CounselingDb.RecordRow | utils/database.py:102-103 | as wide as the header, and each of the seven positions holds its selected column: student name, date, target, method, category (empty for NULL), content, created_at |
| CounselingDb.RecordRows | utils/database.py:101-107 | one row per joined record, ordered by student name and then date |
| CounselingDb.RecordRowsCoverAll | utils/database.py:101-107 | under the foreign key, every record appears in the export |
| CounselingDb.SqlDate | utils/database.py:61 | date() as modelled: a non-NULL result is the YYYY-MM-DD prefix, and the model's date() accepts exactly the stored YYYY-MM-DD HH:MM and a bare YYYY-MM-DD |
| CounselingDb.SqlDateOfStored | utils/database.py:61 | the stored YYYY-MM-DD HH:MM, and also a bare YYYY-MM-DD, give their date part |
| CounselingDb.RemoveDashes | utils/database.py:61 | `REPLACE(.., '-', '')` leaves no dash |
| CounselingDb.RemoveDashesAppend | utils/database.py:61 | removing dashes distributes over concatenation |
| CounselingDb.RemoveDashesOfDate | utils/database.py:61 | a YYYY-MM-DD date without its dashes is YYYYMMDD |
| CounselingDb.DateDigits | utils/database.py:61 | the NEIS date column is YYYYMMDD for a value date() reads, and empty otherwise |
| CounselingDb.DateDigitsExample | utils/database.py:61 | "2024-03-15 10:30" becomes "20240315" |
| CounselingDb.NeisRow | utils/database.py:67-81 | sixteen columns in header order: 4 literals, category, "1", "2025", date, 2 blanks, category, 4 literals, method |
| CounselingDb.NeisDateOfStored | utils/database.py:61 | for a stored YYYY-MM-DD HH:MM counsel_date (and a bare YYYY-MM-DD), column 7 of the NEIS row is YYYYMMDD |
| CounselingDb.EarlierFirst | utils/database.py:64 | `ORDER BY cr.counsel_date` in BINARY order |
| CounselingDb.NeisOrder | utils/database.py:61-64 | the joined records in ascending counsel_date order |
| CounselingDb.NeisOrderCoversAll | utils/database.py:62-63 | under the foreign key, the NEIS export lists every record |
| CounselingDb.Database.constructor | utils/database.py:173-207 | a new file has both tables empty, with the category column present |
| CounselingDb.Database.HasCategory | utils/database.py:216 | the record table's columns include category, the test update_schema makes |
| CounselingDb.Database.Upgrade | utils/database.py:166-171 | an older file keeps its students and records, gets NULL categories, and then gets the category column |
| CounselingDb.Database.UpdateSchema | utils/database.py:209-220 | adds category only when it is missing, so a second run changes nothing; the rows are untouched |
| CounselingDb.Database.AddStudent | utils/database.py:222-253 | True exactly when the name is new and no storage error occurs; stores the next id, the info fields ('' when missing) and now; otherwise no change |
| CounselingDb.Database.UpdateStudent | utils/database.py:255-296 | False with no change when the name is absent or empty, held by another row, or the id is unknown; otherwise rewrites that student's seven fields and updated_at |
| CounselingDb.Database.DeleteStudent | utils/database.py:298-308 | True exactly when a student had that name; removes that student and exactly that student's records |
| CounselingDb.Database.GetStudent | utils/database.py:310-336 | the row with that name, None on a storage error |
| CounselingDb.Database.GetStudentById | utils/database.py:338-364 | the row with that id, None on a storage error |
| CounselingDb.Database.GetAllStudents | utils/database.py:394-403 | all names ascending, [] on a storage error |
| CounselingDb.Database.AddCounselRecord | utils/database.py:405-434 | False and no insert for an unknown name; otherwise exactly one record with the next id, that student's id and the five fields |
| CounselingDb.Database.GetCounselRecords | utils/database.py:436-455 | RecordsOf for the name; [] on a storage error or without the category column |
| CounselingDb.Database.GetCounselRecord | utils/database.py:457-480 | a result exactly when a record has that id, and that record's fields |
| CounselingDb.Database.UpdateCounselRecord | utils/database.py:482-505 | True whether or not the id exists; rewrites the five fields of that row only |
| CounselingDb.Database.DeleteCounselRecordById | utils/database.py:507-516 | True exactly when a record had that id; removes exactly that record |
| CounselingDb.Database.ExportCounselingToCsvForNeis | utils/database.py:55-85 | the NEIS header, then one NeisRow per record, in NeisOrder |
| CounselingDb.Database.ExportToCsv | utils/database.py:87-126 | the two-section layout of the sorted student rows and record rows, which reads back as the student rows and the record rows |
| CounselingDb.Database.ExportStudentsToCsv | utils/database.py:128-145 | the student header, then the student rows ordered by name |
| CounselingDb.Database.ExportCounselingToCsv | utils/database.py:147-164 | the record header, then the record rows |
| LegacyDb.ValidTables | database.py:135-158 | both tables valid: unique names, AUTOINCREMENT ids and the foreign key |
| LegacyDb.LaterFirst | database.py:325 | `ORDER BY counsel_date DESC` in BINARY order |
| LegacyDb.RecordsOf | database.py:315-334 | exactly the named student's records, each an id plus four fields, most recent first |
| LegacyDb.RecordRow | database.py:64-65 | as wide as the header, and each of the six positions holds its selected column: student name, date, target, method, content, created_at |
| LegacyDb.RecordRows | database.py:63-69 | one row per joined record, ordered by student name and then date |
| LegacyDb.RecordRowsCoverAll | database.py:63-69 | under the foreign key, every record appears in the export |
| LegacyDb.Database.constructor | database.py:129-162 | a new file has both tables empty |
| LegacyDb.Database.AddStudent | database.py:164-195 | True exactly when the name is new; stores the info fields ('' when missing); otherwise no change |
| LegacyDb.Database.UpdateStudent | database.py:197-232 | False when the name key is absent (NOT NULL), held by another row, or the id is unknown; an empty name is accepted |
| LegacyDb.Database.DeleteStudent | database.py:234-244 | True exactly when a student had that name; cascades to exactly that student's records |
| LegacyDb.Database.GetStudent | database.py:246-272 | the row with that name |
| LegacyDb.Database.GetAllStudents | database.py:274-283 | all names ascending |
| LegacyDb.Database.AddCounselRecord | database.py:285-313 | False for an unknown name; otherwise one record with four fields |
| LegacyDb.Database.GetCounselRecords | database.py:315-334 | RecordsOf for the name |
| LegacyDb.Database.GetCounselRecord | database.py:336-358 | a result exactly when a record has that id |
| LegacyDb.Database.UpdateCounselRecord | database.py:360-382 | True whether or not the id exists; rewrites the four fields of that row only |
| LegacyDb.Database.DeleteCounselRecordById | database.py:384-393 | True exactly when a record had that id; removes exactly that record |
| LegacyDb.Database.ExportToCsv | database.py:49-88 | the two-section layout of the sorted student rows and six-column record rows, which reads back as the student rows and the six-column record rows |
| LegacyDb.Database.ExportStudentsToCsv | database.py:90-107 | the student header, then the student rows |
| LegacyDb.Database.ExportCounselingToCsv | database.py:109-127 | the record header, then the record rows |

## Left out

- The SQLite engine itself is not modelled: connections, `PRAGMA foreign_keys`, commit and rollback. The tables are in-memory state, and an engine error raised during an operation is that operation's `fault` flag.
- CSV serialisation is not modelled: `csv.writer` quoting, the `utf-8-sig` byte-order mark and the file itself. The model stops at the rows handed to the writer, and a failed write is the `ioFault` flag.
- Csv.WriteCsv: the file's contents after a failed write are not modelled. The file is opened with mode `'w'` (utils/database.py:46, 110; database.py:40, 72), so it is truncated first, and an I/O error raised by `writerow`/`writerows` leaves an empty or partial file behind while the call returns False.
- CounselingDb.Database.constructor and LegacyDb.Database.constructor: always produce usable empty tables. In the source, `init_database` catches and discards a `sqlite3.Error` from table creation (utils/database.py:166-171, 205-207; database.py:160-162), so a new file can be left without tables, after which every call fails. That start state is not modelled.
- `check_connection`, `close_connection` and the connection context manager do not touch the tables.
- `get_student_by_name` runs the same query as `get_student`, so `GetStudent` models both.
- `import_csv_to_students`, `export_form_students_csv` and date-range arguments to the NEIS export are called elsewhere but not defined in either file; the NEIS export at utils/database.py:55 takes no range.
- A record payload without one of its keys raises `KeyError` in the source. The `Payload` datatype always has every field, so that case is not modelled. The path is a real one: the record dicts built at ui/main_window.py:373 and ui/dialogs.py:141-146 carry no '분류', so passing them to utils/database.py raises that uncaught `KeyError`.
- Ids are unbounded `nat`s. SQLite's AUTOINCREMENT fails with SQLITE_FULL once the largest rowid is 2^63-1, and that 64-bit bound is not modelled. Such a failure would be the operation's `fault` flag.
- Student fields that are NULL in the database (a `None` value in `info`) are not modelled. Info values are strings.
- CounselingDb.SqlDate: models date() only for `YYYY-MM-DD` and `YYYY-MM-DD HH:MM` without checking that the month and day are in range. Every other input becomes NULL, whereas SQLite accepts more formats and normalises out-of-range dates.
- `counsel_date` is declared TIMESTAMP: SQLite gives that column NUMERIC affinity, so a date string that looks like a number would be stored as a number and sort before any text. That is not modelled, because the forms always store dashed dates.
- Sequences.SortBy: the model picks one order for rows that tie under ORDER BY (the insertion sort's) and no contract says which; SQLite leaves that order unspecified too.
- CounselingDb.Database.AddStudent: a duplicate name and a storage error both give False, as in the source. The model does not tell them apart either.
- The `category TEXT NOT NULL` constraint of a freshly created table is not a separate invariant. The model only guarantees that every record written through the current layer has a category.
- Neither layer checks that the counseling content or the name given to `add_student` is non-empty, and the model follows the code. Such checks, where they exist, belong to the forms.
- The GUI, worker threads, configuration, password hashing, the updater and encoding detection are outside this layer.
