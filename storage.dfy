/**
 * The two DAOs over SQLite (database/GpaSummaryDao.java and
 * database/CourseDao.java), reduced to their return and error conventions.
 * Whether a call meets an SQLException, and the clock, are parameters.
 */
module Storage {
  import opened Wrappers
  import opened Courses
  import opened Summaries
  import opened Sequences

  /** A row of table gpa_summary. */
  datatype Row = Row(id: int, gpa: real, credits: real, timestamp: string)

  /**
   * The database file: the summary rows newest first, the course rows of
   * each summary id in insertion order, and the AUTOINCREMENT counter.
   */
  datatype Db = Db(rows: seq<Row>, courses: map<int, seq<Course>>, nextId: int)

  /** A freshly created database. */
  const Empty: Db := Db([], map[], 1)

  /**
   * AUTOINCREMENT hands out ids from 1 upward and never reuses one, so
   * every stored id lies below the counter and the rows, newest first,
   * have strictly decreasing ids; course rows only exist for handed-out ids.
   */
  predicate Valid(db: Db) {
    && db.nextId >= 1
    && (forall i :: 0 <= i < |db.rows| ==> 0 < db.rows[i].id < db.nextId)
    && (forall i, j :: 0 <= i < j < |db.rows| ==> db.rows[i].id > db.rows[j].id)
    && (forall id | id in db.courses :: 0 < id < db.nextId)
  }

  predicate HasRow(rows: seq<Row>, id: int) {
    exists i :: 0 <= i < |rows| && rows[i].id == id
  }

  /** The GpaSummary the loading constructor builds from a row. */
  function AsSummary(r: Row): Summary {
    Summary(r.id, r.gpa, r.credits, r.timestamp, [])
  }

  /** The stored fields of a summary, as updateSummary writes them. */
  function AsRow(s: Summary): Row {
    Row(s.id, s.gpa, s.credits, s.timestamp)
  }

  datatype Inserted = Inserted(db: Db, id: int)

  /**
   * insertSummary: a new row stamped `now`, whose generated key is
   * returned; -1 and no change when the statement fails.
   */
  function InsertSummary(db: Db, gpa: real, credits: real, now: string, fails: bool): (r: Inserted)
    ensures fails ==> r == Inserted(db, -1)
    ensures !fails ==> r.id == db.nextId && r.db.nextId == db.nextId + 1
    ensures !fails ==> r.db.rows == [Row(r.id, gpa, credits, now)] + db.rows && r.db.courses == db.courses
    ensures Valid(db) ==> Valid(r.db) && (r.id > 0 <==> !fails)
    ensures Valid(db) && !fails ==> !HasRow(db.rows, r.id) && r.id !in db.courses
  {
    if fails then Inserted(db, -1)
    else Inserted(Db([Row(db.nextId, gpa, credits, now)] + db.rows, db.courses, db.nextId + 1), db.nextId)
  }

  /** How many rows a read yields when it meets an SQLException after `error` rows, if at all. */
  function ReadCount(n: nat, error: Option<nat>): (k: nat)
    ensures k <= n
    ensures error.None? ==> k == n
  {
    if error.Some? && error.value < n then error.value else n
  }

  /**
   * fetchAllSummaries: every row as a summary with no courses, newest
   * first; an SQLException ends the read and the rows read so far are
   * returned (none at all when the query itself fails).
   */
  function FetchAll(db: Db, error: Option<nat>): (list: seq<Summary>)
    ensures |list| <= |db.rows|
    ensures error.None? ==> |list| == |db.rows|
    ensures forall i :: 0 <= i < |list| ==> list[i] == AsSummary(db.rows[i])
  {
    var n := ReadCount(|db.rows|, error);
    seq(n, i requires 0 <= i < n => AsSummary(db.rows[i]))
  }

  datatype Changed = Changed(db: Db, ok: bool)

  function RemoveRow(rows: seq<Row>, id: int): seq<Row> {
    Filter(rows, (r: Row) => r.id != id)
  }

  /**
   * deleteSummary: true iff a row was deleted. The course rows stay: the
   * schema declares ON DELETE CASCADE but foreign keys are never enabled
   * on the SQLite connection.
   */
  function DeleteSummary(db: Db, id: int, fails: bool): (r: Changed)
    ensures r.ok <==> !fails && HasRow(db.rows, id)
    ensures !r.ok ==> r.db == db
    ensures r.ok ==> r.db == db.(rows := RemoveRow(db.rows, id))
  {
    if fails || !HasRow(db.rows, id) then Changed(db, false)
    else Changed(db.(rows := RemoveRow(db.rows, id)), true)
  }

  /** Deleting keeps the ids below the counter and still strictly decreasing. */
  lemma DeleteKeepsValid(db: Db, id: int, fails: bool)
    requires Valid(db)
    ensures Valid(DeleteSummary(db, id, fails).db)
  {
    FilterOrdered(db.rows, (r: Row) => r.id != id, (x: Row, y: Row) => x.id > y.id);
  }

  /** Every row with the summary's id takes its gpa, credits and timestamp. */
  function UpdateRows(rows: seq<Row>, s: Summary): (r: seq<Row>)
    ensures |r| == |rows|
    ensures forall i :: 0 <= i < |r| ==> r[i].id == rows[i].id
    ensures forall i :: 0 <= i < |r| ==> r[i] == (if rows[i].id == s.id then AsRow(s) else rows[i])
  {
    seq(|rows|, i requires 0 <= i < |rows| => if rows[i].id == s.id then AsRow(s) else rows[i])
  }

  /** updateSummary: true iff a row with the summary's id was updated. */
  function UpdateSummary(db: Db, s: Summary, fails: bool): (r: Changed)
    ensures r.ok <==> !fails && HasRow(db.rows, s.id)
    ensures !r.ok ==> r.db == db
    ensures r.ok ==> r.db == db.(rows := UpdateRows(db.rows, s))
    ensures Valid(db) ==> Valid(r.db)
  {
    if fails || !HasRow(db.rows, s.id) then Changed(db, false)
    else Changed(db.(rows := UpdateRows(db.rows, s)), true)
  }

  /** The course rows stored under a summary id, in insertion order. */
  function StoredCourses(db: Db, id: int): seq<Course> {
    if id in db.courses then db.courses[id] else []
  }

  /**
   * insertCourses: the courses go in as one batch under the summary id; an
   * SQLException after `error` of them is caught and the call returns
   * normally, with the courses before it stored.
   */
  function InsertCourses(db: Db, id: int, cs: seq<Course>, error: Option<nat>): (r: Db)
    ensures r.rows == db.rows && r.nextId == db.nextId
    ensures StoredCourses(r, id) == StoredCourses(db, id) + cs[..ReadCount(|cs|, error)]
    ensures forall other :: other != id ==> StoredCourses(r, other) == StoredCourses(db, other)
    ensures Valid(db) && 0 < id < db.nextId ==> Valid(r)
  {
    var n := ReadCount(|cs|, error);
    if n == 0 then db
    else db.(courses := db.courses[id := StoredCourses(db, id) + cs[..n]])
  }

  /**
   * fetchCoursesByGpaSummaryId: the stored courses of one summary in
   * insertion order; an SQLException ends the read with those read so far.
   */
  function FetchCourses(db: Db, id: int, error: Option<nat>): (cs: seq<Course>)
    ensures cs == StoredCourses(db, id)[..ReadCount(|StoredCourses(db, id)|, error)]
    ensures error.None? ==> cs == StoredCourses(db, id)
  {
    var stored := StoredCourses(db, id);
    stored[..ReadCount(|stored|, error)]
  }

  /** Courses written under a fresh id without an error are read back exactly. */
  lemma CoursesRoundTrip(db: Db, gpa: real, credits: real, now: string, cs: seq<Course>)
    requires Valid(db)
    ensures var ins := InsertSummary(db, gpa, credits, now, false);
      FetchCourses(InsertCourses(ins.db, ins.id, cs, None), ins.id, None) == cs
  {
    var ins := InsertSummary(db, gpa, credits, now, false);
    assert StoredCourses(ins.db, ins.id) == [];
    assert cs[..|cs|] == cs;
  }
}
