/**
 Giving an owner to rows that have none, twice: in SQL, a table at a time (backend/app/core/db.py), and
 through the ORM, a row at a time (backend/app/services/ownership.py).
 */
module Ownership {
  import opened Wrappers

  /** A row of the tasks, the reminders or the confirmations. */
  datatype Row = Row(id: string, user: Option<string>)
  datatype Event = Event(id: string, task: Option<string>, user: Option<string>)

  datatype Tables = Tables(tasks: seq<Row>, reminders: seq<Row>, confirmations: seq<Row>, events: seq<Event>)

  /** `user_id IS NULL OR user_id = ''` */
  predicate IsBlank(user: Option<string>) {
    user.None? || user.value == ""
  }

  function Filled(user: Option<string>, owner: string): Option<string> {
    if IsBlank(user) then Some(owner) else user
  }

  function FilledRows(rows: seq<Row>, owner: string): (t: seq<Row>)
    ensures |t| == |rows| && forall k | 0 <= k < |t| :: t[k] == rows[k].(user := Filled(rows[k].user, owner))
  {
    seq(|rows|, k requires 0 <= k < |rows| => rows[k].(user := Filled(rows[k].user, owner)))
  }

  /** The owner of a task; `None` if there is no such task. */
  function TaskOwner(tasks: seq<Row>, id: string): (r: Option<Option<string>>)
    ensures r.Some? ==> exists k | 0 <= k < |tasks| :: tasks[k].id == id && tasks[k].user == r.value
    ensures r.None? <==> forall k | 0 <= k < |tasks| :: tasks[k].id != id
  {
    if tasks == [] then None
    else if tasks[|tasks| - 1].id == id then Some(tasks[|tasks| - 1].user)
    else TaskOwner(tasks[..|tasks| - 1], id)
  }

  /** `COALESCE((SELECT tasks.user_id ...), :owner_id)` */
  function SqlOwner(tasks: seq<Row>, task: Option<string>, owner: string): Option<string> {
    var found := if task.Some? then TaskOwner(tasks, task.value) else None;
    if found.Some? && found.value.Some? then found.value else Some(owner)
  }

  /** `task.user_id if task and task.user_id else owner_id`, for the task that a non-empty id names */
  function OrmOwner(tasks: seq<Row>, task: Option<string>, owner: string): Option<string> {
    var found := if task.Some? && task.value != "" then TaskOwner(tasks, task.value) else None;
    if found.Some? && !IsBlank(found.value) then found.value else Some(owner)
  }

  function SqlEvents(events: seq<Event>, tasks: seq<Row>, owner: string): (t: seq<Event>)
    ensures |t| == |events|
    ensures forall k | 0 <= k < |t| ::
      t[k] == if IsBlank(events[k].user) then events[k].(user := SqlOwner(tasks, events[k].task, owner)) else events[k]
  {
    seq(|events|, k requires 0 <= k < |events| =>
      if IsBlank(events[k].user) then events[k].(user := SqlOwner(tasks, events[k].task, owner)) else events[k])
  }

  function OrmEvents(events: seq<Event>, tasks: seq<Row>, owner: string): (t: seq<Event>)
    ensures |t| == |events|
    ensures forall k | 0 <= k < |t| ::
      t[k] == if IsBlank(events[k].user) then events[k].(user := OrmOwner(tasks, events[k].task, owner)) else events[k]
  {
    seq(|events|, k requires 0 <= k < |events| =>
      if IsBlank(events[k].user) then events[k].(user := OrmOwner(tasks, events[k].task, owner)) else events[k])
  }

  function AfterSql(t: Tables, owner: string): Tables {
    var tasks := FilledRows(t.tasks, owner);
    Tables(tasks, FilledRows(t.reminders, owner), FilledRows(t.confirmations, owner), SqlEvents(t.events, tasks, owner))
  }

  function AfterOrm(t: Tables, owner: string): Tables {
    var tasks := FilledRows(t.tasks, owner);
    Tables(tasks, FilledRows(t.reminders, owner), FilledRows(t.confirmations, owner), OrmEvents(t.events, tasks, owner))
  }

  // ---------- What both do ----------

  /** A blank row gets an owner, and the others keep theirs. */
  ghost predicate OnlyFills(user: Option<string>, after: Option<string>) {
    !IsBlank(after) && (!IsBlank(user) ==> after == user)
  }

  ghost predicate OnlyFillsAll(t: Tables, after: Tables) {
    && |after.tasks| == |t.tasks| && |after.reminders| == |t.reminders|
    && |after.confirmations| == |t.confirmations| && |after.events| == |t.events|
    && (forall k | 0 <= k < |t.tasks| ::
          after.tasks[k].id == t.tasks[k].id && OnlyFills(t.tasks[k].user, after.tasks[k].user))
    && (forall k | 0 <= k < |t.reminders| ::
          after.reminders[k].id == t.reminders[k].id && OnlyFills(t.reminders[k].user, after.reminders[k].user))
    && (forall k | 0 <= k < |t.confirmations| ::
          && after.confirmations[k].id == t.confirmations[k].id
          && OnlyFills(t.confirmations[k].user, after.confirmations[k].user))
    && (forall k | 0 <= k < |t.events| ::
          && after.events[k].id == t.events[k].id && after.events[k].task == t.events[k].task
          && OnlyFills(t.events[k].user, after.events[k].user))
  }

  lemma {:induction false} FilledOwner(tasks: seq<Row>, id: string, owner: string)
    ensures var found := TaskOwner(tasks, id);
      TaskOwner(FilledRows(tasks, owner), id) == if found.Some? then Some(Filled(found.value, owner)) else None
  {
    if tasks != [] {
      var n := |tasks| - 1;
      FilledOwner(tasks[..n], id, owner);
      assert FilledRows(tasks, owner)[..n] == FilledRows(tasks[..n], owner);
    }
  }

  /** Both backfills fill every blank owner and change no other, in every table. */
  lemma BothOnlyFill(t: Tables, owner: string)
    requires owner != ""
    ensures OnlyFillsAll(t, AfterSql(t, owner)) && OnlyFillsAll(t, AfterOrm(t, owner))
  {
    var tasks := FilledRows(t.tasks, owner);
    forall e: Event ensures !IsBlank(SqlOwner(tasks, e.task, owner)) && !IsBlank(OrmOwner(tasks, e.task, owner)) {
      if e.task.Some? {
        FilledOwner(t.tasks, e.task.value, owner);
      }
    }
  }

  // ---------- The programs ----------

  /** The loop over the blank rows of one table. */
  method BackfillRows(rows: seq<Row>, owner: string) returns (t: seq<Row>)
    ensures t == FilledRows(rows, owner)
  {
    t := rows;
    for k := 0 to |t|
      invariant |t| == |rows|
      invariant forall j | 0 <= j < k :: t[j] == FilledRows(rows, owner)[j]
      invariant forall j | k <= j < |t| :: t[j] == rows[j]
    {
      if IsBlank(t[k].user) {
        t := t[k := t[k].(user := Some(owner))];
      }
    }
  }

  class Database {
    var tables: Tables

    /** The owners of the briefing runs, which only `ensure_schema` fills. */
    var runs: seq<Row>

    /**
     The updates of `ensure_schema`, in their order; a column that was just added is `NULL` in every row. The
     briefing runs are only filled if there is exactly one user.
     */
    method EnsureSchema(owner: string, users: nat)
      modifies this
      ensures tables == AfterSql(old(tables), owner)
      ensures owner != "" ==> OnlyFillsAll(old(tables), tables)
      ensures |runs| == |old(runs)| && forall k | 0 <= k < |runs| ::
        runs[k].id == old(runs)[k].id &&
        runs[k].user == if users == 1 && IsBlank(old(runs)[k].user) then Some(owner) else old(runs)[k].user
    {
      tables := tables.(reminders := FilledRows(tables.reminders, owner));
      tables := tables.(tasks := FilledRows(tables.tasks, owner));
      tables := tables.(events := SqlEvents(tables.events, tables.tasks, owner));
      tables := tables.(confirmations := FilledRows(tables.confirmations, owner));
      if users == 1 {
        runs := FilledRows(runs, owner);
      }
      if owner != "" {
        BothOnlyFill(old(tables), owner);
      }
    }

    /** `backfill_core_user_ids` */
    method BackfillCoreUserIds(owner: string)
      modifies this`tables
      ensures tables == AfterOrm(old(tables), owner)
      ensures owner != "" ==> OnlyFillsAll(old(tables), tables)
    {
      var tasks := BackfillRows(tables.tasks, owner);
      var reminders := BackfillRows(tables.reminders, owner);
      var confirmations := BackfillRows(tables.confirmations, owner);
      var events := tables.events;
      for k := 0 to |events|
        invariant |events| == |tables.events|
        invariant forall j | 0 <= j < k :: events[j] == OrmEvents(tables.events, tasks, owner)[j]
        invariant forall j | k <= j < |events| :: events[j] == tables.events[j]
      {
        if IsBlank(events[k].user) {
          var id := events[k].task;
          var task := if id.Some? && id.value != "" then TaskOwner(tasks, id.value) else None;
          var user := if task.Some? && task.value.Some? && task.value.value != "" then task.value else Some(owner);
          events := events[k := events[k].(user := user)];
        }
      }
      assert events == OrmEvents(tables.events, tasks, owner);
      tables := Tables(tasks, reminders, confirmations, events);
      if owner != "" {
        BothOnlyFill(old(tables), owner);
      }
    }
  }

  // ---------- Doing it again ----------

  /** A second backfill, by either of them and for whatever owner, changes nothing. */
  lemma SecondChangesNothing(t: Tables, owner: string, other: string)
    requires owner != ""
    ensures AfterSql(AfterSql(t, owner), other) == AfterSql(t, owner) == AfterOrm(AfterSql(t, owner), other)
    ensures AfterOrm(AfterOrm(t, owner), other) == AfterOrm(t, owner) == AfterSql(AfterOrm(t, owner), other)
  {
    hide AfterSql, AfterOrm, OnlyFillsAll;
    BothOnlyFill(t, owner);
    FilledIsFull(t, AfterSql(t, owner));
    FilledIsFull(t, AfterOrm(t, owner));
    NothingToFill(AfterSql(t, owner), other);
    NothingToFill(AfterOrm(t, owner), other);
  }

  lemma FilledIsFull(t: Tables, after: Tables)
    requires OnlyFillsAll(t, after)
    ensures OnlyFillsAll(after, after)
  {
  }

  lemma NothingToFill(t: Tables, owner: string)
    requires OnlyFillsAll(t, t)
    ensures AfterSql(t, owner) == t == AfterOrm(t, owner)
  {
  }

  /** A blank event gets the owner that its task has in the end. */
  lemma EventsFollowTasks(t: Tables, owner: string, k: nat)
    requires k < |t.events| && IsBlank(t.events[k].user) && t.events[k].task.Some?
    requires TaskOwner(t.tasks, t.events[k].task.value).Some?
    ensures var after := AfterSql(t, owner);
      Some(after.events[k].user) == TaskOwner(after.tasks, t.events[k].task.value)
    ensures t.events[k].task.value != "" && owner != "" ==>
      var after := AfterOrm(t, owner); Some(after.events[k].user) == TaskOwner(after.tasks, t.events[k].task.value)
  {
    FilledOwner(t.tasks, t.events[k].task.value, owner);
  }

  // ---------- Where they differ ----------

  /** A blank event names, with a blank id, a task of another owner. */
  predicate Disputed(t: Tables, e: Event, owner: string) {
    && IsBlank(e.user) && e.task == Some("")
    && TaskOwner(t.tasks, "").Some? && !IsBlank(TaskOwner(t.tasks, "").value)
      && TaskOwner(t.tasks, "").value != Some(owner)
  }

  lemma OwnersDiffer(t: Tables, e: Event, owner: string)
    requires owner != "" && IsBlank(e.user)
    ensures var tasks := FilledRows(t.tasks, owner);
      SqlOwner(tasks, e.task, owner) == OrmOwner(tasks, e.task, owner) <==> !Disputed(t, e, owner)
  {
    if e.task.Some? {
      FilledOwner(t.tasks, e.task.value, owner);
    }
  }

  /** The two backfills agree on everything if and only if there is no such event. */
  lemma SqlIsOrmIff(t: Tables, owner: string)
    requires owner != ""
    ensures AfterSql(t, owner) == AfterOrm(t, owner) <==> forall e | e in t.events :: !Disputed(t, e, owner)
  {
    var tasks := FilledRows(t.tasks, owner);
    var sql, orm := SqlEvents(t.events, tasks, owner), OrmEvents(t.events, tasks, owner);
    forall e | e in t.events && IsBlank(e.user)
      ensures SqlOwner(tasks, e.task, owner) == OrmOwner(tasks, e.task, owner) <==> !Disputed(t, e, owner)
    {
      OwnersDiffer(t, e, owner);
    }
    if sql == orm {
      forall e | e in t.events ensures !Disputed(t, e, owner) {
        var k :| 0 <= k < |t.events| && t.events[k] == e;
        assert sql[k] == orm[k];
      }
    }
    if forall e | e in t.events :: !Disputed(t, e, owner) {
      forall k | 0 <= k < |t.events| ensures sql[k] == orm[k] {
        assert !Disputed(t, t.events[k], owner);
      }
      assert sql == orm;
    }
  }

  /**
   A task with a blank id and another owner, and a blank event that names it: SQL follows the task, the ORM does
   not.
   */
  lemma MigrationsCanDiffer()
    ensures var t := Tables([Row("", Some("ana"))], [], [], [Event("e", Some(""), None)]);
      && AfterSql(t, "owner").events == [Event("e", Some(""), Some("ana"))]
      && AfterOrm(t, "owner").events == [Event("e", Some(""), Some("owner"))]
  {
    var tasks := FilledRows([Row("", Some("ana"))], "owner");
    assert tasks == [Row("", Some("ana"))];
    assert TaskOwner(tasks, "") == Some(Some("ana"));
  }

  // ---------- Why the order matters ----------

  /** With the events first, the SQL backfill leaves an event blank exactly if its task was owned by the empty text. */
  lemma EventsFirstLeaveBlankIff(t: Tables, owner: string, k: nat)
    requires owner != "" && k < |t.events| && IsBlank(t.events[k].user)
    ensures IsBlank(SqlEvents(t.events, t.tasks, owner)[k].user) <==>
      t.events[k].task.Some? && TaskOwner(t.tasks, t.events[k].task.value) == Some(Some(""))
  {
  }
}
