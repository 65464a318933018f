/**
 * services/GpaSummaryService.java: the single worker that runs storage tasks
 * one at a time in submission order, and the history list it keeps in step
 * with storage.
 */
module Service {
  import opened Wrappers
  import opened Courses
  import opened Summaries
  import Storage
  import opened History
  import opened Sequences

  /** One submitted operation, with the arguments it was submitted with. */
  datatype Task =
    | Save(gpa: real, credits: real)
    | SaveWithCourses(gpa: real, credits: real, courses: seq<Course>)
    | LoadAll
    | Delete(id: int)
    | Update(summary: Summary)
    | LoadCourses(summaryId: int)

  /** Which callback a finished task runs. */
  datatype Outcome =
    | Succeeded                         // onSuccess, or loadAllSummaries' onComplete
    | SucceededWith(courses: seq<Course>)  // loadCoursesForSummary's onSuccess.accept(courses)
    | Failed                            // onFailure
    | Unreported                        // a failed loadAllSummaries: no callback at all

  /**
   * What the outside world decides while one task runs: the clock reading an
   * insert stamps, whether an unchecked exception escapes the task's first
   * storage call, and where each storage call meets an SQLException.
   */
  datatype Env = Env(
    now: string,
    crash: bool,
    insertFails: bool,
    fetchError: Option<nat>,
    courseInsertError: Option<nat>,
    deleteFails: bool,
    updateFails: bool,
    courseFetchError: Option<nat>)

  predicate NoFaults(env: Env) {
    && !env.crash && !env.insertFails && env.fetchError.None? && env.courseInsertError.None?
    && !env.deleteFails && !env.updateFails && env.courseFetchError.None?
  }

  datatype Transition = Transition(db: Storage.Db, history: seq<Summary>, outcome: Outcome)

  /** The first summary of a fetched list with the id, as the save loops search for it. */
  function FindId(list: seq<Summary>, id: int): (found: Option<Summary>)
    ensures found.Some? <==> HasId(list, id)
    ensures found.Some? ==> found.value.id == id && found.value in list
  {
    var k := IndexOfId(list, id);
    if k < 0 then None else Some(list[k])
  }

  /**
   * One task from start to finish: its call() on the worker, then the
   * success or failure handler on the UI thread.
   */
  function Run(t: Task, db: Storage.Db, h: seq<Summary>, env: Env): Transition {
    if env.crash then Transition(db, h, if t.LoadAll? then Unreported else Failed)
    else match t
      case Save(gpa, credits) =>
        var ins := Storage.InsertSummary(db, gpa, credits, env.now, env.insertFails);
        if ins.id <= 0 then Transition(ins.db, h, Failed)
        else (match FindId(Storage.FetchAll(ins.db, env.fetchError), ins.id)
          case None => Transition(ins.db, h, Failed)
          case Some(s) => Transition(ins.db, [s] + h, Succeeded))
      case SaveWithCourses(gpa, credits, cs) =>
        var ins := Storage.InsertSummary(db, gpa, credits, env.now, env.insertFails);
        if ins.id <= 0 then Transition(ins.db, h, Failed)
        else
          var db' := Storage.InsertCourses(ins.db, ins.id, cs, env.courseInsertError);
          (match FindId(Storage.FetchAll(db', env.fetchError), ins.id)
           case None => Transition(db', h, Failed)
           case Some(s) => Transition(db', [s.(courses := cs)] + h, Succeeded))
      case LoadAll =>
        Transition(db, Storage.FetchAll(db, env.fetchError), Succeeded)
      case Delete(id) =>
        var d := Storage.DeleteSummary(db, id, env.deleteFails);
        if d.ok then Transition(d.db, RemoveId(h, id), Succeeded) else Transition(d.db, h, Failed)
      case Update(s) =>
        var u := Storage.UpdateSummary(db, s, env.updateFails);
        if u.ok then Transition(u.db, ReplaceFirst(h, s), Succeeded) else Transition(u.db, h, Failed)
      case LoadCourses(id) =>
        var cs := Storage.FetchCourses(db, id, env.courseFetchError);
        Transition(db, SetCoursesFirst(h, id, cs), SucceededWith(cs))
  }

  /** Every history entry was handed out by the storage's id counter. */
  predicate IdsIssued(h: seq<Summary>, db: Storage.Db) {
    forall i :: 0 <= i < |h| ==> 0 < h[i].id < db.nextId
  }

  /**
   * The history lists newer summaries first: ids strictly decrease along it,
   * so no id appears twice.
   */
  predicate NewestFirst(h: seq<Summary>) {
    forall i, j :: 0 <= i < j < |h| ==> h[i].id > h[j].id
  }

  /** The service's view of the world: GpaSummaryService with its executor and DAOs. */
  class GpaSummaryService {
    var history: seq<Summary>
    var queue: seq<Task>
    var shutdown: bool
    var db: Storage.Db

    predicate Valid()
      reads this
    {
      Storage.Valid(db) && IdsIssued(history, db) && NewestFirst(history)
    }

    /** The first getInstance(): an empty history and an idle, running worker. */
    constructor (db: Storage.Db)
      requires Storage.Valid(db)
      ensures Valid()
      ensures history == [] && queue == [] && !shutdown && this.db == db
    {
      history := [];
      queue := [];
      shutdown := false;
      this.db := db;
    }

    /** executor.submit: queued at the back, or rejected once shut down. */
    method Submit(t: Task) returns (accepted: bool)
      requires Valid()
      modifies this
      ensures Valid()
      ensures accepted == !old(shutdown)
      ensures queue == if accepted then old(queue) + [t] else old(queue)
      ensures history == old(history) && db == old(db) && shutdown == old(shutdown)
    {
      accepted := !shutdown;
      if accepted {
        queue := queue + [t];
      }
    }

    method SaveSummary(gpa: real, credits: real) returns (accepted: bool)
      requires Valid()
      modifies this
      ensures Valid()
      ensures accepted == !old(shutdown)
      ensures queue == if accepted then old(queue) + [Save(gpa, credits)] else old(queue)
      ensures history == old(history) && db == old(db) && shutdown == old(shutdown)
    {
      accepted := Submit(Save(gpa, credits));
    }

    method SaveSummaryWithCourses(gpa: real, credits: real, courses: seq<Course>) returns (accepted: bool)
      requires Valid()
      modifies this
      ensures Valid()
      ensures accepted == !old(shutdown)
      ensures queue == if accepted then old(queue) + [SaveWithCourses(gpa, credits, courses)] else old(queue)
      ensures history == old(history) && db == old(db) && shutdown == old(shutdown)
    {
      accepted := Submit(SaveWithCourses(gpa, credits, courses));
    }

    method LoadAllSummaries() returns (accepted: bool)
      requires Valid()
      modifies this
      ensures Valid()
      ensures accepted == !old(shutdown)
      ensures queue == if accepted then old(queue) + [LoadAll] else old(queue)
      ensures history == old(history) && db == old(db) && shutdown == old(shutdown)
    {
      accepted := Submit(LoadAll);
    }

    method DeleteSummary(id: int) returns (accepted: bool)
      requires Valid()
      modifies this
      ensures Valid()
      ensures accepted == !old(shutdown)
      ensures queue == if accepted then old(queue) + [Delete(id)] else old(queue)
      ensures history == old(history) && db == old(db) && shutdown == old(shutdown)
    {
      accepted := Submit(Delete(id));
    }

    /** The task receives the summary's state as it is at submission. */
    method UpdateSummary(summary: GpaSummary) returns (accepted: bool)
      requires Valid()
      modifies this
      ensures Valid()
      ensures accepted == !old(shutdown)
      ensures queue == if accepted then old(queue) + [Update(summary.Value())] else old(queue)
      ensures history == old(history) && db == old(db) && shutdown == old(shutdown)
    {
      accepted := Submit(Update(summary.Value()));
    }

    method LoadCoursesForSummary(summaryId: int) returns (accepted: bool)
      requires Valid()
      modifies this
      ensures Valid()
      ensures accepted == !old(shutdown)
      ensures queue == if accepted then old(queue) + [LoadCourses(summaryId)] else old(queue)
      ensures history == old(history) && db == old(db) && shutdown == old(shutdown)
    {
      accepted := Submit(LoadCourses(summaryId));
    }

    /** executor.shutdown: no new tasks, but the queued ones still run. */
    method Shutdown()
      requires Valid()
      modifies this
      ensures Valid()
      ensures shutdown
      ensures queue == old(queue) && history == old(history) && db == old(db)
    {
      shutdown := true;
    }

    /** The save task's search of the refetched list: return the first row with the id. */
    method FindSaved(list: seq<Summary>, id: int) returns (found: Option<Summary>)
      ensures found == FindId(list, id)
    {
      for i := 0 to |list|
        invariant forall j :: 0 <= j < i ==> list[j].id != id
      {
        if list[i].id == id {
          assert IndexOfId(list, id) == i;
          return Some(list[i]);
        }
      }
      return None;
    }

    /** The update handler's loop: set the first entry with the id, then break. */
    method ReplaceInHistory(s: Summary)
      modifies this
      ensures history == ReplaceFirst(old(history), s)
      ensures queue == old(queue) && db == old(db) && shutdown == old(shutdown)
    {
      ghost var h := history;
      for i := 0 to |history|
        invariant history == h
        invariant forall j :: 0 <= j < i ==> h[j].id != s.id
      {
        if history[i].id == s.id {
          assert IndexOfId(h, s.id) == i;
          history := history[i := s];
          return;
        }
      }
    }

    /** The course-loading handler's loop: setCourses on the first entry with the id, then break. */
    method SetCoursesInHistory(id: int, cs: seq<Course>)
      modifies this
      ensures history == SetCoursesFirst(old(history), id, cs)
      ensures queue == old(queue) && db == old(db) && shutdown == old(shutdown)
    {
      ghost var h := history;
      for i := 0 to |history|
        invariant history == h
        invariant forall j :: 0 <= j < i ==> h[j].id != id
      {
        if history[i].id == id {
          assert IndexOfId(h, id) == i;
          history := history[i := history[i].(courses := cs)];
          return;
        }
      }
    }

    /**
     * The worker takes the oldest queued task and runs it to completion;
     * with nothing queued it waits and nothing changes.
     */
    method Step(env: Env) returns (outcome: Option<Outcome>)
      requires Valid()
      modifies this
      ensures Valid()
      ensures shutdown == old(shutdown)
      ensures old(queue) == [] ==> outcome.None? && queue == [] && history == old(history) && db == old(db)
      ensures old(queue) != [] ==>
        var tr := Run(old(queue[0]), old(db), old(history), env);
        && queue == old(queue[1..])
        && db == tr.db && history == tr.history && outcome == Some(tr.outcome)
    {
      if queue == [] {
        return None;
      }
      var t := queue[0];
      queue := queue[1..];
      RunKeepsValid(t, db, history, env);
      RunKeepsOrder(t, db, history, env);
      if env.crash {
        outcome := Some(if t.LoadAll? then Unreported else Failed);
        return;
      }
      var o: Outcome;
      match t {
        case Save(gpa, credits) => o := RunSave(gpa, credits, env);
        case SaveWithCourses(gpa, credits, cs) => o := RunSaveWithCourses(gpa, credits, cs, env);
        case LoadAll => o := RunLoadAll(env);
        case Delete(id) => o := RunDelete(id, env);
        case Update(s) => o := RunUpdate(s, env);
        case LoadCourses(id) => o := RunLoadCourses(id, env);
      }
      outcome := Some(o);
    }

    /** saveSummary's task and handlers. */
    method RunSave(gpa: real, credits: real, env: Env) returns (outcome: Outcome)
      requires !env.crash
      modifies this
      ensures Transition(db, history, outcome) == Run(Save(gpa, credits), old(db), old(history), env)
      ensures queue == old(queue) && shutdown == old(shutdown)
    {
      var ins := Storage.InsertSummary(db, gpa, credits, env.now, env.insertFails);
      db := ins.db;
      if ins.id <= 0 {
        return Failed;
      }
      var found := FindSaved(Storage.FetchAll(db, env.fetchError), ins.id);
      if found.None? {
        return Failed;
      }
      history := [found.value] + history;
      outcome := Succeeded;
    }

    /** saveSummaryWithCourses' task and handlers: the courses go in only after a good parent insert. */
    method RunSaveWithCourses(gpa: real, credits: real, cs: seq<Course>, env: Env) returns (outcome: Outcome)
      requires !env.crash
      modifies this
      ensures Transition(db, history, outcome) == Run(SaveWithCourses(gpa, credits, cs), old(db), old(history), env)
      ensures queue == old(queue) && shutdown == old(shutdown)
    {
      var ins := Storage.InsertSummary(db, gpa, credits, env.now, env.insertFails);
      db := ins.db;
      if ins.id <= 0 {
        return Failed;
      }
      db := Storage.InsertCourses(db, ins.id, cs, env.courseInsertError);
      var found := FindSaved(Storage.FetchAll(db, env.fetchError), ins.id);
      if found.None? {
        return Failed;
      }
      history := [found.value.(courses := cs)] + history;
      outcome := Succeeded;
    }

    /** loadAllSummaries' task and handler: clear, then add all that was fetched. */
    method RunLoadAll(env: Env) returns (outcome: Outcome)
      requires !env.crash
      modifies this
      ensures Transition(db, history, outcome) == Run(LoadAll, old(db), old(history), env)
      ensures queue == old(queue) && shutdown == old(shutdown)
    {
      history := Storage.FetchAll(db, env.fetchError);
      outcome := Succeeded;
    }

    /** loadCoursesForSummary's task and handler. */
    method RunLoadCourses(id: int, env: Env) returns (outcome: Outcome)
      requires !env.crash
      modifies this
      ensures Transition(db, history, outcome) == Run(LoadCourses(id), old(db), old(history), env)
      ensures queue == old(queue) && shutdown == old(shutdown)
    {
      var cs := Storage.FetchCourses(db, id, env.courseFetchError);
      SetCoursesInHistory(id, cs);
      outcome := SucceededWith(cs);
    }

    /** deleteSummary's task and handlers. */
    method RunDelete(id: int, env: Env) returns (outcome: Outcome)
      requires !env.crash
      modifies this
      ensures Transition(db, history, outcome) == Run(Delete(id), old(db), old(history), env)
      ensures queue == old(queue) && shutdown == old(shutdown)
    {
      var d := Storage.DeleteSummary(db, id, env.deleteFails);
      db := d.db;
      if !d.ok {
        return Failed;
      }
      history := RemoveId(history, id);
      outcome := Succeeded;
    }

    /** updateSummary's task and handlers. */
    method RunUpdate(s: Summary, env: Env) returns (outcome: Outcome)
      requires !env.crash
      modifies this
      ensures Transition(db, history, outcome) == Run(Update(s), old(db), old(history), env)
      ensures queue == old(queue) && shutdown == old(shutdown)
    {
      var u := Storage.UpdateSummary(db, s, env.updateFails);
      db := u.db;
      if !u.ok {
        return Failed;
      }
      ReplaceInHistory(s);
      outcome := Succeeded;
    }
  }

  /** Every task keeps the storage valid and the history's ids issued. */
  lemma RunKeepsValid(t: Task, db: Storage.Db, h: seq<Summary>, env: Env)
    requires Storage.Valid(db) && IdsIssued(h, db)
    ensures Storage.Valid(Run(t, db, h, env).db)
    ensures IdsIssued(Run(t, db, h, env).history, Run(t, db, h, env).db)
  {
    if !env.crash {
      match t {
        case Save(gpa, credits) => SaveKeepsValid(gpa, credits, db, h, env);
        case SaveWithCourses(gpa, credits, cs) => SaveWithCoursesKeepsValid(gpa, credits, cs, db, h, env);
        case LoadAll => LoadAllKeepsValid(db, h, env);
        case Delete(id) => DeleteKeepsIssued(id, db, h, env);
        case Update(s) => UpdateKeepsIssued(s, db, h, env);
        case LoadCourses(id) => LoadCoursesKeepsIssued(id, db, h, env);
      }
    }
  }

  /** Every task keeps the history newest first. */
  lemma RunKeepsOrder(t: Task, db: Storage.Db, h: seq<Summary>, env: Env)
    requires Storage.Valid(db) && IdsIssued(h, db) && NewestFirst(h)
    ensures NewestFirst(Run(t, db, h, env).history)
  {
    if !env.crash {
      match t {
        case Save(gpa, credits) =>
          var ins := Storage.InsertSummary(db, gpa, credits, env.now, env.insertFails);
          if ins.id > 0 {
            PrependKeepsOrder(FindId(Storage.FetchAll(ins.db, env.fetchError), ins.id), ins.id, h, db);
          }
        case SaveWithCourses(gpa, credits, cs) =>
          var ins := Storage.InsertSummary(db, gpa, credits, env.now, env.insertFails);
          if ins.id > 0 {
            var found := FindId(Storage.FetchAll(Storage.InsertCourses(ins.db, ins.id, cs, env.courseInsertError), env.fetchError), ins.id);
            if found.Some? {
              PrependKeepsOrder(Some(found.value.(courses := cs)), ins.id, h, db);
            }
          }
        case LoadAll =>
          var list := Storage.FetchAll(db, env.fetchError);
          assert forall i :: 0 <= i < |list| ==> list[i].id == db.rows[i].id;
        case Delete(id) =>
          FilterOrdered(h, (s: Summary) => s.id != id, (x: Summary, y: Summary) => x.id > y.id);
        case Update(s) =>
        case LoadCourses(id) =>
      }
    }
  }

  /** A summary carrying the counter's newest id can go in front of the history. */
  lemma PrependKeepsOrder(found: Option<Summary>, id: int, h: seq<Summary>, db: Storage.Db)
    requires IdsIssued(h, db) && NewestFirst(h) && id == db.nextId
    requires found.Some? ==> found.value.id == id
    ensures found.Some? ==> NewestFirst([found.value] + h)
  {
  }

  lemma SaveKeepsValid(gpa: real, credits: real, db: Storage.Db, h: seq<Summary>, env: Env)
    requires Storage.Valid(db) && IdsIssued(h, db) && !env.crash
    ensures Storage.Valid(Run(Save(gpa, credits), db, h, env).db)
    ensures IdsIssued(Run(Save(gpa, credits), db, h, env).history, Run(Save(gpa, credits), db, h, env).db)
  {
    var ins := Storage.InsertSummary(db, gpa, credits, env.now, env.insertFails);
    if ins.id > 0 {
      var found := FindId(Storage.FetchAll(ins.db, env.fetchError), ins.id);
      assert found.Some? ==> found.value.id == ins.id;
    }
  }

  lemma SaveWithCoursesKeepsValid(gpa: real, credits: real, cs: seq<Course>, db: Storage.Db, h: seq<Summary>, env: Env)
    requires Storage.Valid(db) && IdsIssued(h, db) && !env.crash
    ensures var t := SaveWithCourses(gpa, credits, cs);
      Storage.Valid(Run(t, db, h, env).db) && IdsIssued(Run(t, db, h, env).history, Run(t, db, h, env).db)
  {
    var ins := Storage.InsertSummary(db, gpa, credits, env.now, env.insertFails);
    if ins.id > 0 {
      var db' := Storage.InsertCourses(ins.db, ins.id, cs, env.courseInsertError);
      var found := FindId(Storage.FetchAll(db', env.fetchError), ins.id);
      assert found.Some? ==> found.value.id == ins.id;
    }
  }

  lemma LoadAllKeepsValid(db: Storage.Db, h: seq<Summary>, env: Env)
    requires Storage.Valid(db) && IdsIssued(h, db) && !env.crash
    ensures IdsIssued(Run(LoadAll, db, h, env).history, db)
  {
  }

  lemma DeleteKeepsIssued(id: int, db: Storage.Db, h: seq<Summary>, env: Env)
    requires Storage.Valid(db) && IdsIssued(h, db) && !env.crash
    ensures Storage.Valid(Run(Delete(id), db, h, env).db)
    ensures IdsIssued(Run(Delete(id), db, h, env).history, Run(Delete(id), db, h, env).db)
  {
    Storage.DeleteKeepsValid(db, id, env.deleteFails);
    RemoveIdMembers(h, id);
  }

  lemma UpdateKeepsIssued(s: Summary, db: Storage.Db, h: seq<Summary>, env: Env)
    requires Storage.Valid(db) && IdsIssued(h, db) && !env.crash
    ensures Storage.Valid(Run(Update(s), db, h, env).db)
    ensures IdsIssued(Run(Update(s), db, h, env).history, Run(Update(s), db, h, env).db)
  {
  }

  lemma LoadCoursesKeepsIssued(id: int, db: Storage.Db, h: seq<Summary>, env: Env)
    requires Storage.Valid(db) && IdsIssued(h, db) && !env.crash
    ensures IdsIssued(Run(LoadCourses(id), db, h, env).history, db)
  {
  }

  /** A task that reports failure, or nothing, leaves the history as it was. */
  lemma FailureKeepsHistory(t: Task, db: Storage.Db, h: seq<Summary>, env: Env)
    ensures Run(t, db, h, env).outcome in {Failed, Unreported} ==> Run(t, db, h, env).history == h
  {
  }

  /**
   * saveSummary succeeds exactly when the insert works and the refetch reaches
   * the new row, which is the newest; the history then gains that row in front.
   */
  lemma SaveOutcome(gpa: real, credits: real, db: Storage.Db, h: seq<Summary>, env: Env)
    requires Storage.Valid(db)
    ensures var tr := Run(Save(gpa, credits), db, h, env);
      && (tr.outcome == Succeeded <==>
            !env.crash && !env.insertFails && Storage.ReadCount(|db.rows| + 1, env.fetchError) > 0)
      && (tr.outcome == Succeeded ==> tr.history == [Summary(db.nextId, gpa, credits, env.now, [])] + h)
      && (tr.outcome != Succeeded ==> tr.outcome == Failed && tr.history == h)
      && (env.crash || env.insertFails ==> tr.db == db)
  {
    if !env.crash && !env.insertFails {
      var ins := Storage.InsertSummary(db, gpa, credits, env.now, false);
      var list := Storage.FetchAll(ins.db, env.fetchError);
      if |list| > 0 {
        assert list[0].id == ins.id;
        assert IndexOfId(list, ins.id) == 0;
      }
    }
  }

  /**
   * saveSummaryWithCourses stores courses only under an id the insert
   * returned. An error while storing them is swallowed: the summary row
   * stays, the outcome depends only on the insert and the refetch, and a
   * success puts the submitted course list, not what was stored, on the
   * new history entry.
   */
  lemma SaveWithCoursesOutcome(gpa: real, credits: real, cs: seq<Course>, db: Storage.Db, h: seq<Summary>, env: Env)
    requires Storage.Valid(db)
    ensures var tr := Run(SaveWithCourses(gpa, credits, cs), db, h, env);
      && (tr.outcome == Succeeded <==>
            !env.crash && !env.insertFails && Storage.ReadCount(|db.rows| + 1, env.fetchError) > 0)
      && (tr.outcome != Succeeded ==> tr.outcome == Failed && tr.history == h)
      && (env.crash || env.insertFails ==> tr.db == db)
      && (!env.crash && !env.insertFails ==>
            && tr.db.rows == [Storage.Row(db.nextId, gpa, credits, env.now)] + db.rows
            && Storage.StoredCourses(tr.db, db.nextId) == cs[..Storage.ReadCount(|cs|, env.courseInsertError)])
      && (tr.outcome == Succeeded ==> tr.history == [Summary(db.nextId, gpa, credits, env.now, cs)] + h)
      && (NoFaults(env) ==> tr.outcome == Succeeded)
  {
    if !env.crash && !env.insertFails {
      var ins := Storage.InsertSummary(db, gpa, credits, env.now, false);
      var db' := Storage.InsertCourses(ins.db, ins.id, cs, env.courseInsertError);
      assert Storage.StoredCourses(ins.db, ins.id) == [];
      var list := Storage.FetchAll(db', env.fetchError);
      if |list| > 0 {
        assert list[0].id == ins.id;
        assert IndexOfId(list, ins.id) == 0;
      }
    }
  }

  /**
   * loadAllSummaries replaces the history by exactly the fetched list; when
   * the task fails the history stays and no callback runs.
   */
  lemma LoadAllOutcome(db: Storage.Db, h: seq<Summary>, env: Env)
    ensures var tr := Run(LoadAll, db, h, env);
      && tr.db == db
      && (!env.crash ==> tr.outcome == Succeeded && tr.history == Storage.FetchAll(db, env.fetchError))
      && (env.crash ==> tr.outcome == Unreported && tr.history == h)
  {
  }

  /**
   * deleteSummary: when storage deletes a row every history entry with the
   * id goes and the others stay in order; otherwise failure and no change.
   */
  lemma DeleteOutcome(id: int, db: Storage.Db, h: seq<Summary>, env: Env)
    ensures var tr := Run(Delete(id), db, h, env);
      && (tr.outcome == Succeeded <==> !env.crash && !env.deleteFails && Storage.HasRow(db.rows, id))
      && (tr.outcome == Succeeded ==> !HasId(tr.history, id) && tr.history == RemoveId(h, id))
      && (tr.outcome != Succeeded ==> tr.outcome == Failed && tr.history == h && tr.db == db)
  {
    var r := RemoveId(h, id);
    RemoveIdMembers(h, id);
    assert forall j :: 0 <= j < |r| ==> r[j].id != id;
  }

  /**
   * updateSummary: when storage updates a row the first history entry with
   * the id is replaced; the history keeps its length, and success is
   * reported even when no entry matched.
   */
  lemma UpdateOutcome(s: Summary, db: Storage.Db, h: seq<Summary>, env: Env)
    ensures var tr := Run(Update(s), db, h, env);
      && |tr.history| == |h|
      && (tr.outcome == Succeeded <==> !env.crash && !env.updateFails && Storage.HasRow(db.rows, s.id))
      && (tr.outcome == Succeeded ==> tr.history == ReplaceFirst(h, s))
      && (tr.outcome == Succeeded && !HasId(h, s.id) ==> tr.history == h)
      && (tr.outcome == Succeeded && HasId(h, s.id) ==> tr.history[IndexOfId(h, s.id)] == s)
      && (tr.outcome != Succeeded ==> tr.outcome == Failed && tr.history == h && tr.db == db)
  {
  }

  /**
   * loadCoursesForSummary hands the fetched courses to the callback whether
   * or not an entry matched, and only the first matching entry receives them;
   * an unchecked exception in the task runs onFailure and leaves the history.
   */
  lemma LoadCoursesOutcome(id: int, db: Storage.Db, h: seq<Summary>, env: Env)
    ensures var tr := Run(LoadCourses(id), db, h, env);
      && tr.db == db
      && (!env.crash ==>
            && tr.outcome == SucceededWith(Storage.FetchCourses(db, id, env.courseFetchError))
            && tr.history == SetCoursesFirst(h, id, Storage.FetchCourses(db, id, env.courseFetchError)))
      && (env.crash ==> tr.history == h && tr.outcome == Failed)
  {
  }

  /** The history shows exactly the stored rows, in storage order (courses aside). */
  predicate Mirrors(h: seq<Summary>, db: Storage.Db) {
    |h| == |db.rows| && forall i :: 0 <= i < |h| ==> Storage.AsRow(h[i]) == db.rows[i]
  }

  /** A fault-free loadAllSummaries brings the history in step with storage. */
  lemma LoadAllMirrors(db: Storage.Db, h: seq<Summary>, env: Env)
    requires NoFaults(env)
    ensures Mirrors(Run(LoadAll, db, h, env).history, db)
  {
  }

  /**
   * While no storage call fails, every task keeps the history in step with
   * storage: each handler makes the same change to the list that the task
   * made to the table.
   */
  lemma MirrorKept(t: Task, db: Storage.Db, h: seq<Summary>, env: Env)
    requires Storage.Valid(db) && Mirrors(h, db) && NoFaults(env)
    ensures Mirrors(Run(t, db, h, env).history, Run(t, db, h, env).db)
  {
    match t {
      case Save(gpa, credits) =>
        SaveMirrored(gpa, credits, db, h, env);
      case SaveWithCourses(gpa, credits, cs) =>
        SaveWithCoursesMirrored(gpa, credits, cs, db, h, env);
      case LoadAll =>
      case Delete(id) =>
        RemoveMirrored(h, db.rows, id);
      case Update(s) =>
        ReplaceMirrored(h, db, s);
      case LoadCourses(id) =>
    }
  }

  lemma SaveMirrored(gpa: real, credits: real, db: Storage.Db, h: seq<Summary>, env: Env)
    requires Storage.Valid(db) && Mirrors(h, db) && NoFaults(env)
    ensures Mirrors(Run(Save(gpa, credits), db, h, env).history, Run(Save(gpa, credits), db, h, env).db)
  {
    SaveOutcome(gpa, credits, db, h, env);
  }

  lemma SaveWithCoursesMirrored(gpa: real, credits: real, cs: seq<Course>, db: Storage.Db, h: seq<Summary>, env: Env)
    requires Storage.Valid(db) && Mirrors(h, db) && NoFaults(env)
    ensures var t := SaveWithCourses(gpa, credits, cs);
      Mirrors(Run(t, db, h, env).history, Run(t, db, h, env).db)
  {
    SaveWithCoursesOutcome(gpa, credits, cs, db, h, env);
  }

  lemma {:induction false} RemoveMirrored(h: seq<Summary>, rows: seq<Storage.Row>, id: int)
    requires |h| == |rows| && forall i :: 0 <= i < |h| ==> Storage.AsRow(h[i]) == rows[i]
    ensures var h', rows' := RemoveId(h, id), Storage.RemoveRow(rows, id);
      |h'| == |rows'| && forall i :: 0 <= i < |h'| ==> Storage.AsRow(h'[i]) == rows'[i]
  {
    if h != [] {
      assert h[0].id == rows[0].id;
      RemoveMirrored(h[1..], rows[1..], id);
    }
  }

  lemma ReplaceMirrored(h: seq<Summary>, db: Storage.Db, s: Summary)
    requires Storage.Valid(db) && Mirrors(h, db)
    ensures Mirrors(ReplaceFirst(h, s), db.(rows := Storage.UpdateRows(db.rows, s)))
  {
    var r, rows := ReplaceFirst(h, s), Storage.UpdateRows(db.rows, s);
    forall i | 0 <= i < |h| ensures Storage.AsRow(r[i]) == rows[i] {
      assert h[i].id == db.rows[i].id;
      if r[i] == h[i] && h[i].id == s.id {
        var k := IndexOfId(h, s.id);
        assert h[k].id == db.rows[k].id;
        assert r[k] == s;
      }
    }
  }

  /**
   * Courses saved together with a summary, with no fault, are what loading
   * that summary's courses returns, and the history entry already holds them.
   */
  lemma SaveThenLoadCourses(gpa: real, credits: real, cs: seq<Course>, db: Storage.Db, h: seq<Summary>, env1: Env, env2: Env)
    requires Storage.Valid(db) && NoFaults(env1) && NoFaults(env2)
    ensures var saved := Run(SaveWithCourses(gpa, credits, cs), db, h, env1);
      var loaded := Run(LoadCourses(db.nextId), saved.db, saved.history, env2);
      && loaded.outcome == SucceededWith(cs)
      && loaded.history == saved.history
  {
    SaveWithCoursesOutcome(gpa, credits, cs, db, h, env1);
    var saved := Run(SaveWithCourses(gpa, credits, cs), db, h, env1);
    assert cs[..|cs|] == cs;
    assert saved.history[0].id == db.nextId;
    assert IndexOfId(saved.history, db.nextId) == 0;
  }

  /** Ids grow with each save: a newly saved entry carries an id above every older one. */
  lemma SavedIdIsNewest(gpa: real, credits: real, db: Storage.Db, h: seq<Summary>, env: Env)
    requires Storage.Valid(db) && IdsIssued(h, db)
    ensures var tr := Run(Save(gpa, credits), db, h, env);
      tr.outcome == Succeeded ==> forall i :: 1 <= i < |tr.history| ==> tr.history[i].id < tr.history[0].id
  {
    SaveOutcome(gpa, credits, db, h, env);
  }
}
