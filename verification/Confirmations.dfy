/**
 Pending confirmations and their expiry: backend/app/services/confirmations.py. Times are in seconds;
 a call is one step, and a guard (`get_pending` or `latest_pending`) is one step with what it guards.
 */
module Confirmations {
  import opened Wrappers

  datatype Status = Pending | Confirmed | Cancelled | Failed | Expired

  datatype Row = Row(
    id: string,
    user: Option<string>,
    source: string,
    chat: Option<string>,
    action: string,
    status: Status,
    createdAt: int,
    expiresAt: int,
    resolvedAt: Option<int>)

  /** The arguments that narrow a query; `None` is no condition. */
  datatype Query = Query(chat: Option<string>, source: Option<string>, action: Option<string>, user: Option<string>)

  const EVERYTHING := Query(None, None, None, None)

  // ---------- Rows ----------

  predicate IsLive(r: Row, now: int) {
    r.status.Pending? && now < r.expiresAt
  }

  function Expire(r: Row, now: int): Row {
    if r.status.Pending? && r.expiresAt <= now then r.(status := Expired, resolvedAt := Some(now)) else r
  }

  function ExpireAll(rows: seq<Row>, now: int): (t: seq<Row>)
    ensures |t| == |rows| && forall k | 0 <= k < |t| :: t[k] == Expire(rows[k], now)
  {
    seq(|rows|, k requires 0 <= k < |rows| => Expire(rows[k], now))
  }

  predicate Matches(r: Row, q: Query) {
    && (q.chat.Some? ==> r.chat == q.chat)
    && (q.source.Some? ==> r.source == q.source.value)
    && (q.action.Some? ==> r.action == q.action.value)
    && (q.user.Some? ==> r.user == q.user)
  }

  predicate NewestFirst(rows: seq<Row>) {
    forall i, j | 0 <= i < j < |rows| :: rows[i].createdAt >= rows[j].createdAt
  }

  function Insert(r: Row, rows: seq<Row>): seq<Row> {
    if rows == [] || r.createdAt > rows[0].createdAt then [r] + rows else [rows[0]] + Insert(r, rows[1..])
  }

  /** The pending rows that a query selects, the newest first. */
  function Selected(rows: seq<Row>, q: Query): seq<Row> {
    if rows == [] then []
    else
      var last := rows[|rows| - 1];
      var rest := Selected(rows[..|rows| - 1], q);
      if last.status.Pending? && Matches(last, q) then Insert(last, rest) else rest
  }

  lemma {:induction false} InsertAdds(r: Row, rows: seq<Row>)
    ensures multiset(Insert(r, rows)) == multiset(rows) + multiset{r}
  {
    if rows != [] {
      assert rows == [rows[0]] + rows[1..];
      InsertAdds(r, rows[1..]);
    }
  }

  lemma {:induction false} InsertKeepsOrder(r: Row, rows: seq<Row>)
    requires NewestFirst(rows)
    ensures NewestFirst(Insert(r, rows))
  {
    if rows != [] && r.createdAt <= rows[0].createdAt {
      InsertKeepsOrder(r, rows[1..]);
      InsertAdds(r, rows[1..]);
      var rest := Insert(r, rows[1..]);
      hide Insert;
      forall j | 0 <= j < |rest| ensures rows[0].createdAt >= rest[j].createdAt {
        assert rest[j] in multiset(rest);
        assert rest[j] == r || rest[j] in multiset(rows[1..]);
      }
    }
  }

  /** Exactly the pending rows that match are selected, in the order of their age. */
  lemma {:induction false} SelectedAreThose(rows: seq<Row>, q: Query)
    ensures NewestFirst(Selected(rows, q))
    ensures forall r :: r in Selected(rows, q) <==> r in rows && r.status.Pending? && Matches(r, q)
  {
    if rows != [] {
      var front, last := rows[..|rows| - 1], rows[|rows| - 1];
      assert rows == front + [last];
      SelectedAreThose(front, q);
      if last.status.Pending? && Matches(last, q) {
        InsertKeepsOrder(last, Selected(front, q));
        InsertAdds(last, Selected(front, q));
        forall r ensures r in Insert(last, Selected(front, q)) <==> r == last || r in Selected(front, q) {
          assert r in Insert(last, Selected(front, q)) <==> r in multiset(Insert(last, Selected(front, q)));
        }
      }
    }
  }

  /** What a query asks for: the chat, the source, the action and the user that it names. */
  lemma SelectedMatch(rows: seq<Row>, q: Query, r: Row)
    ensures r in Selected(rows, q) <==>
      && r in rows && r.status == Pending
      && (q.chat == None || q.chat == r.chat) && (q.source == None || q.source == Some(r.source))
      && (q.action == None || q.action == Some(r.action)) && (q.user == None || q.user == r.user)
  {
    SelectedAreThose(rows, q);
  }

  ghost predicate DistinctIds(rows: seq<Row>) {
    forall i, j | 0 <= i < j < |rows| :: rows[i].id != rows[j].id
  }

  /** `db.get`: where the row with an id is. */
  function Find(rows: seq<Row>, id: string): (k: Option<nat>)
    ensures k.Some? ==> k.value < |rows| && rows[k.value].id == id
    ensures k.None? ==> forall j | 0 <= j < |rows| :: rows[j].id != id
  {
    if rows == [] then None
    else if rows[|rows| - 1].id == id then Some(|rows| - 1)
    else Find(rows[..|rows| - 1], id)
  }

  function Got(rows: seq<Row>, now: int, id: string, user: Option<string>): (k: Option<nat>)
    ensures k.Some? ==> k.value < |rows| && rows[k.value].id == id
  {
    var k := Find(rows, id);
    if k.None? || !IsLive(rows[k.value], now) then None
    else if user.None? || user == Some("") || rows[k.value].user == user then k
    else None
  }

  function AfterGet(rows: seq<Row>, now: int, id: string, user: Option<string>): (t: seq<Row>)
    ensures |t| == |rows|
  {
    var k := Find(rows, id);
    if k.Some? && (user.None? || user == Some("") || rows[k.value].user == user)
    then rows[k.value := Expire(rows[k.value], now)]
    else rows
  }

  /** What `latest_pending` answers when the database gives the pending rows in this order. */
  function LatestOf(selected: seq<Row>, now: int): Option<Row> {
    if selected != [] && IsLive(selected[0], now) then Some(selected[0]) else None
  }

  function Latest(rows: seq<Row>, now: int, q: Query): Option<Row> {
    LatestOf(Selected(rows, q), now)
  }

  function AfterLatest(rows: seq<Row>, now: int, q: Query): seq<Row> {
    var selected := Selected(rows, q);
    if selected == [] then rows
    else
      var k := Find(rows, selected[0].id);
      if k.Some? then rows[k.value := Expire(rows[k.value], now)] else rows
  }

  // ---------- Steps ----------

  datatype Verdict = Confirm | Cancel | Fail

  function StatusOf(v: Verdict): Status {
    match v
    case Confirm => Confirmed
    case Cancel => Cancelled
    case Fail => Failed
  }

  /**
   What the action of a confirmation does: it succeeds, and confirms; or raises, having resolved the
   confirmation or not.
   */
  datatype Outcome = Succeeds | Raises(resolved: Option<Verdict>)

  /** `executed`: the confirmations whose actions succeeded, in order. */
  datatype State = State(rows: seq<Row>, executed: seq<string>)

  datatype Event =
    | Create(now: int, id: string, user: Option<string>, source: string, chat: Option<string>, action: string,
        lifetime: int)
    | List(now: int, query: Query)
    | AskLatest(now: int, query: Query)
    | Get(now: int, id: string, user: Option<string>)
    | Resolve(now: int, id: string, user: Option<string>, verdict: Verdict)
    | Execute(now: int, id: string, owner: string, outcome: Outcome)

  datatype Answer = Rows(rows: seq<Row>) | One(row: Option<Row>) | Success(ok: bool)

  function Resolved(r: Row, v: Verdict, now: int): Row {
    r.(status := StatusOf(v), resolvedAt := Some(now))
  }

  function NewRow(e: Event): Row
    requires e.Create?
  {
    Row(e.id, e.user, e.source, e.chat, e.action, Pending, e.now, e.now + e.lifetime, None)
  }

  /** What resolving does to a confirmation for which the guard let the call through. */
  function VerdictOf(outcome: Outcome): Verdict {
    match outcome
    case Succeeds => Confirm
    case Raises(resolved) => if resolved.Some? then resolved.value else Fail
  }

  function Next(s: State, e: Event): State {
    match e
    case Create(_, id, _, _, _, _, _) => if Find(s.rows, id).None? then s.(rows := s.rows + [NewRow(e)]) else s
    case List(now, _) => s.(rows := ExpireAll(s.rows, now))
    case AskLatest(now, q) => s.(rows := AfterLatest(s.rows, now, q))
    case Get(now, id, user) => s.(rows := AfterGet(s.rows, now, id, user))
    case Resolve(now, id, user, v) =>
      var k := Got(s.rows, now, id, user);
      if k.Some? then s.(rows := s.rows[k.value := Resolved(s.rows[k.value], v, now)])
      else s.(rows := AfterGet(s.rows, now, id, user))
    case Execute(now, id, user, outcome) =>
      var k := Got(s.rows, now, id, Some(user));
      if user == "" then s
      else if k.Some? then
        State(s.rows[k.value := Resolved(s.rows[k.value], VerdictOf(outcome), now)],
              if outcome.Succeeds? then s.executed + [id] else s.executed)
      else s.(rows := AfterGet(s.rows, now, id, Some(user)))
  }

  function AnswerTo(s: State, e: Event): Answer {
    match e
    case Create(_, id, _, _, _, _, _) => Success(Find(s.rows, id).None?)
    case List(now, q) => Rows(Selected(ExpireAll(s.rows, now), q))
    case AskLatest(now, q) => One(Latest(s.rows, now, q))
    case Get(now, id, user) =>
      var k := Got(s.rows, now, id, user);
      One(if k.Some? then Some(s.rows[k.value]) else None)
    case Resolve(now, id, user, _) => Success(Got(s.rows, now, id, user).Some?)
    case Execute(now, id, user, outcome) =>
      Success(user != "" && Got(s.rows, now, id, Some(user)).Some? && outcome.Succeeds?)
  }

  class Store {
    var rows: seq<Row>
    var executed: seq<string>

    function Value(): State
      reads this
    {
      State(rows, executed)
    }

    /** `create_confirmation` */
    method CreateConfirmation(now: int, id: string, user: Option<string>, source: string, chat: Option<string>,
                              action: string, lifetime: int)
      returns (ok: bool)
      modifies this`rows
      ensures Value() == Next(old(Value()), Create(now, id, user, source, chat, action, lifetime))
      ensures Success(ok) == AnswerTo(old(Value()), Create(now, id, user, source, chat, action, lifetime))
    {
      if Find(rows, id).Some? {
        return false;
      }
      rows := rows + [Row(id, user, source, chat, action, Pending, now, now + lifetime, None)];
      ok := true;
    }

    /** `_expire_due` */
    method ExpireDue(now: int)
      modifies this`rows
      ensures rows == ExpireAll(old(rows), now)
    {
      for k := 0 to |rows|
        invariant |rows| == |old(rows)|
        invariant forall j | 0 <= j < k :: rows[j] == Expire(old(rows)[j], now)
        invariant forall j | k <= j < |rows| :: rows[j] == old(rows)[j]
      {
        if rows[k].status.Pending? && rows[k].expiresAt <= now {
          rows := rows[k := rows[k].(status := Expired, resolvedAt := Some(now))];
        }
      }
    }

    /** `list_pending` */
    method ListPending(now: int, q: Query) returns (listed: seq<Row>)
      modifies this`rows
      ensures Value() == Next(old(Value()), List(now, q))
      ensures Rows(listed) == AnswerTo(old(Value()), List(now, q))
    {
      ExpireDue(now);
      listed := Selected(rows, q);
    }

    /** `latest_pending` */
    method LatestPending(now: int, q: Query) returns (r: Option<Row>)
      requires DistinctIds(rows)
      modifies this`rows
      ensures Value() == Next(old(Value()), AskLatest(now, q))
      ensures One(r) == AnswerTo(old(Value()), AskLatest(now, q))
    {
      var selected := Selected(rows, q);
      if selected == [] {
        return None;
      }
      var confirmation := selected[0];
      SelectedAreThose(rows, q);
      assert confirmation in selected;
      var k := Find(rows, confirmation.id);
      assert rows[k.value] == confirmation;
      if confirmation.expiresAt <= now {
        rows := rows[k.value := confirmation.(status := Expired, resolvedAt := Some(now))];
        return None;
      }
      assert rows[k.value := Expire(rows[k.value], now)] == rows;
      r := Some(confirmation);
    }

    /** `get_pending`: the place of the row. */
    method GetPending(now: int, id: string, user: Option<string>) returns (k: Option<nat>)
      modifies this`rows
      ensures rows == AfterGet(old(rows), now, id, user)
      ensures k == Got(old(rows), now, id, user)
      ensures k.Some? ==> rows == old(rows)
    {
      k := Find(rows, id);
      if user.Some? && user != Some("") && (k.None? || rows[k.value].user != user) {
        return None;
      }
      if k.None? || !rows[k.value].status.Pending? {
        return None;
      }
      if rows[k.value].expiresAt <= now {
        rows := rows[k.value := rows[k.value].(status := Expired, resolvedAt := Some(now))];
        return None;
      }
    }

    /** `confirm`, `cancel` or `fail`, on a row that the guard returned. */
    method Settle(k: nat, v: Verdict, now: int)
      requires k < |rows|
      modifies this`rows
      ensures rows == old(rows)[k := Resolved(old(rows)[k], v, now)]
    {
      rows := rows[k := rows[k].(status := StatusOf(v))];
      rows := rows[k := rows[k].(resolvedAt := Some(now))];
    }

    /** A guard and what it guards, as the routes and the bot call them. */
    method ResolvePending(now: int, id: string, user: Option<string>, v: Verdict) returns (ok: bool)
      modifies this`rows
      ensures Value() == Next(old(Value()), Resolve(now, id, user, v))
      ensures Success(ok) == AnswerTo(old(Value()), Resolve(now, id, user, v))
    {
      var k := GetPending(now, id, user);
      if k.Some? {
        Settle(k.value, v, now);
      }
      ok := k.Some?;
    }

    /** `_process_confirmation` of backend/app/services/background_jobs.py */
    method ProcessConfirmation(now: int, id: string, user: string, outcome: Outcome) returns (ok: bool)
      modifies this
      ensures Value() == Next(old(Value()), Execute(now, id, user, outcome))
      ensures Success(ok) == AnswerTo(old(Value()), Execute(now, id, user, outcome))
    {
      if user == "" {
        return false;
      }
      var k := GetPending(now, id, Some(user));
      if k.None? {
        return false;
      }
      match outcome
      case Succeeds =>
        Settle(k.value, Confirm, now);
        executed := executed + [id];
        ok := true;
      case Raises(resolved) =>
        if resolved.Some? {
          Settle(k.value, resolved.value, now);
        }
        if rows[k.value].status.Pending? {
          Settle(k.value, Fail, now);
        }
        ok := false;
    }
  }

  // ---------- Invariants of all runs ----------

  function Run(s: State, events: seq<Event>): State {
    if events == [] then s else Next(Run(s, events[..|events| - 1]), events[|events| - 1])
  }

  /** When a confirmation was resolved: in time by a person or a job, or not before its time by the clock. */
  predicate ResolvedInTime(r: Row) {
    match r.status
    case Pending => r.resolvedAt.None?
    case Expired => r.resolvedAt.Some? && r.resolvedAt.value >= r.expiresAt
    case _ => r.resolvedAt.Some? && r.resolvedAt.value < r.expiresAt
  }

  /** An id that was executed is that of a confirmed row. */
  ghost predicate IsConfirmed(rows: seq<Row>, id: string) {
    exists k | 0 <= k < |rows| :: rows[k].id == id && rows[k].status.Confirmed?
  }

  ghost predicate Inv(s: State) {
    && DistinctIds(s.rows)
    && (forall k | 0 <= k < |s.rows| :: ResolvedInTime(s.rows[k]))
    && (forall i, j | 0 <= i < j < |s.executed| :: s.executed[i] != s.executed[j])
    && (forall id | id in s.executed :: IsConfirmed(s.rows, id))
  }

  /** What any step does to a row that is there: nothing, or resolve it if it is pending. */
  predicate RowStep(r: Row, t: Row) {
    || t == r
    || (&& r.status.Pending? && !t.status.Pending? && t == r.(status := t.status, resolvedAt := t.resolvedAt)
        && (ResolvedInTime(r) ==> ResolvedInTime(t)))
  }

  lemma StepOfRows(s: State, e: Event)
    ensures |s.rows| <= |Next(s, e).rows| <= |s.rows| + 1
    ensures forall k | 0 <= k < |s.rows| :: RowStep(s.rows[k], Next(s, e).rows[k])
    ensures |Next(s, e).rows| > |s.rows| ==>
      e.Create? && Next(s, e).rows[|s.rows|] == NewRow(e) && Find(s.rows, e.id).None?
  {
  }

  /** What a step adds to the executed ids: only one whose row was pending and is confirmed now. */
  lemma StepOfExecuted(s: State, e: Event)
    ensures Next(s, e).executed == s.executed || (e.Execute? && Next(s, e).executed == s.executed + [e.id])
    ensures Next(s, e).executed != s.executed ==> exists k | 0 <= k < |s.rows| ::
      s.rows[k].id == e.id && s.rows[k].status.Pending? && Next(s, e).rows[k].status.Confirmed?
  {
  }

  lemma StepKeepsInv(s: State, e: Event)
    requires Inv(s)
    ensures Inv(Next(s, e))
  {
    var t := Next(s, e);
    StepOfRows(s, e);
    StepOfExecuted(s, e);
    hide Next;
    forall id | id in s.executed ensures IsConfirmed(t.rows, id) {
      var k :| 0 <= k < |s.rows| && s.rows[k].id == id && s.rows[k].status.Confirmed?;
      assert RowStep(s.rows[k], t.rows[k]);
    }
    if t.executed != s.executed {
      var k :| 0 <= k < |s.rows| && s.rows[k].id == e.id && s.rows[k].status.Pending? && t.rows[k].status.Confirmed?;
      assert RowStep(s.rows[k], t.rows[k]);
      PendingIsNotExecuted(s, k);
    }
  }

  lemma PendingIsNotExecuted(s: State, k: nat)
    requires Inv(s) && k < |s.rows| && s.rows[k].status.Pending?
    ensures s.rows[k].id !in s.executed
  {
  }

  /** No action of a confirmation succeeds twice, by one job or several, and each is resolved in time: in every run. */
  lemma {:induction false} RunKeepsInv(s: State, events: seq<Event>)
    requires Inv(s)
    ensures Inv(Run(s, events))
  {
    if events != [] {
      RunKeepsInv(s, events[..|events| - 1]);
      StepKeepsInv(Run(s, events[..|events| - 1]), events[|events| - 1]);
    }
  }

  /** A confirmation that is not pending stays as it is, whatever happens. */
  lemma {:induction false} ResolvedStays(s: State, events: seq<Event>, k: nat)
    requires k < |s.rows| && !s.rows[k].status.Pending?
    ensures |Run(s, events).rows| >= |s.rows| && Run(s, events).rows[k] == s.rows[k]
  {
    if events != [] {
      var before := Run(s, events[..|events| - 1]);
      ResolvedStays(s, events[..|events| - 1], k);
      StepOfRows(before, events[|events| - 1]);
      assert RowStep(before.rows[k], Next(before, events[|events| - 1]).rows[k]);
    }
  }

  // ---------- How a confirmation ends ----------

  lemma FindOfDistinct(rows: seq<Row>, k: nat)
    requires DistinctIds(rows) && k < |rows|
    ensures Find(rows, rows[k].id) == Some(k)
  {
  }

  /** The guard lets the call through to this pending row: it is the one that is meant, its user's, and in time. */
  predicate Admits(r: Row, e: Event) {
    match e
    case Resolve(now, id, user, _) =>
      r.id == id && now < r.expiresAt && (user.None? || user == Some("") || user == r.user)
    case Execute(now, id, owner, _) => r.id == id && now < r.expiresAt && owner != "" && r.user == Some(owner)
    case _ => false
  }

  /** The event brings the pending row to this status. */
  predicate Brings(r: Row, e: Event, status: Status) {
    match status
    case Pending => false
    case Confirmed => Admits(r, e) && if e.Resolve? then e.verdict == Confirm
                                      else e.outcome == Succeeds || e.outcome == Raises(Some(Confirm))
    case Cancelled => Admits(r, e) && if e.Resolve? then e.verdict == Cancel else e.outcome == Raises(Some(Cancel))
    case Failed => Admits(r, e) && if e.Resolve? then e.verdict == Fail
                                   else e.outcome == Raises(None) || e.outcome == Raises(Some(Fail))
    case Expired => r.expiresAt <= e.now
  }

  /** What one event does to a pending row. */
  lemma StepBrings(s: State, e: Event, k: nat)
    requires DistinctIds(s.rows) && k < |s.rows| && s.rows[k].status.Pending?
    ensures k < |Next(s, e).rows|
    ensures var r, t := s.rows[k], Next(s, e).rows[k];
      && (t == r || (t == r.(status := t.status, resolvedAt := Some(e.now)) && Brings(r, e, t.status)))
      && (Admits(r, e) ==> !t.status.Pending?)
      && (forall status :: status in {Confirmed, Cancelled, Failed} && Brings(r, e, status) ==> t.status == status)
      && (e.List? && r.expiresAt <= e.now ==> t.status.Expired?)
  {
    FindOfDistinct(s.rows, k);
    hide Selected;
  }

  lemma RowsStayDistinct(s: State, e: Event)
    requires DistinctIds(s.rows)
    ensures DistinctIds(Next(s, e).rows)
  {
    StepOfRows(s, e);
    hide Next;
    forall i, j | 0 <= i < j < |Next(s, e).rows| ensures Next(s, e).rows[i].id != Next(s, e).rows[j].id {
      assert RowStep(s.rows[i], Next(s, e).rows[i]);
      if j < |s.rows| {
        assert RowStep(s.rows[j], Next(s, e).rows[j]);
      }
    }
  }

  /** Until something resolves it, a pending row stays as it is. */
  lemma {:induction false} PendingStays(s: State, events: seq<Event>, k: nat)
    requires DistinctIds(s.rows) && k < |s.rows| && s.rows[k].status.Pending?
    ensures DistinctIds(Run(s, events).rows) && k < |Run(s, events).rows|
    ensures Run(s, events).rows[k].status.Pending? ==> Run(s, events).rows[k] == s.rows[k]
  {
    if events != [] {
      var before, e := Run(s, events[..|events| - 1]), events[|events| - 1];
      PendingStays(s, events[..|events| - 1], k);
      RowsStayDistinct(before, e);
      StepOfRows(before, e);
      assert RowStep(before.rows[k], Next(before, e).rows[k]);
    }
  }

  /**
   A row that was pending and is not any more was resolved by one event, in whatever run: by that one alone it is
   confirmed, cancelled, failed or expired, and at that time.
   */
  lemma {:induction false} HowItEnded(s: State, events: seq<Event>, k: nat) returns (i: nat)
    requires DistinctIds(s.rows) && k < |s.rows| && s.rows[k].status.Pending?
    requires k < |Run(s, events).rows| && !Run(s, events).rows[k].status.Pending?
    ensures i < |events| && k < |Run(s, events[..i]).rows| && Run(s, events[..i]).rows[k] == s.rows[k]
    ensures var t := Run(s, events).rows[k];
      t == s.rows[k].(status := t.status, resolvedAt := Some(events[i].now)) && Brings(s.rows[k], events[i], t.status)
  {
    hide Next, Brings;
    var n := |events| - 1;
    var before := Run(s, events[..n]);
    PendingStays(s, events[..n], k);
    if before.rows[k].status.Pending? {
      i := n;
      StepBrings(before, events[n], k);
    } else {
      i := HowItEnded(s, events[..n], k);
      assert events[..n][..i] == events[..i];
      StepOfRows(before, events[n]);
      assert RowStep(before.rows[k], Next(before, events[n]).rows[k]);
    }
  }

  /** And an event that confirms, cancels or fails a row that is still pending decides how it ends. */
  lemma {:induction false} EndsAs(s: State, events: seq<Event>, k: nat, i: nat, status: Status)
    requires DistinctIds(s.rows) && k < |s.rows| && s.rows[k].status.Pending? && i < |events|
    requires k < |Run(s, events[..i]).rows| && Run(s, events[..i]).rows[k].status.Pending?
    requires status in {Confirmed, Cancelled, Failed} && Brings(s.rows[k], events[i], status)
    ensures k < |Run(s, events).rows| && Run(s, events).rows[k].status == status
  {
    hide Next, Brings;
    var n := |events| - 1;
    var before := Run(s, events[..n]);
    PendingStays(s, events[..n], k);
    PendingStays(s, events, k);
    if i == n {
      StepBrings(before, events[n], k);
    } else {
      assert events[..n][..i] == events[..i];
      EndsAs(s, events[..n], k, i, status);
      StepOfRows(before, events[n]);
      assert RowStep(before.rows[k], Next(before, events[n]).rows[k]);
    }
  }

  ghost predicate AdmittedSomewhere(rows: seq<Row>, e: Event) {
    exists k | 0 <= k < |rows| :: rows[k].status.Pending? && Admits(rows[k], e)
  }

  /** A call succeeds, and an action is executed, exactly if the guard lets it through and the action does not raise. */
  lemma SucceedsIff(s: State, e: Event)
    requires DistinctIds(s.rows) && (e.Resolve? || e.Execute?)
    ensures AnswerTo(s, e) == Success(AdmittedSomewhere(s.rows, e) && (e.Execute? ==> e.outcome == Succeeds))
    ensures Next(s, e).executed ==
      if e.Execute? && AnswerTo(s, e).ok then s.executed + [e.id] else s.executed
  {
    forall k | 0 <= k < |s.rows| ensures Find(s.rows, s.rows[k].id) == Some(k) {
      FindOfDistinct(s.rows, k);
    }
  }

  /** A new confirmation belongs to its user, and can be given until its lifetime is over. */
  lemma CreatedIsPending(s: State, e: Event)
    requires e.Create? && forall k | 0 <= k < |s.rows| :: s.rows[k].id != e.id
    ensures Next(s, e).rows ==
      s.rows + [Row(e.id, e.user, e.source, e.chat, e.action, Pending, e.now, e.now + e.lifetime, None)]
  {
  }

  // ---------- Eager and lazy expiry ----------

  /**
   At any instant a confirmation is in a user's list if and only if asking for it by its id finds it; a blank
   user is the exception, which the list takes as an owner and the other as nobody in particular.
   */
  lemma ListedIffGot(s: State, now: int, id: string, user: Option<string>)
    requires DistinctIds(s.rows)
    ensures (exists r :: r in AnswerTo(s, List(now, EVERYTHING.(user := user))).rows && r.id == id) <==>
      && AnswerTo(s, Get(now, id, user)).row.Some?
      && (user == Some("") ==> AnswerTo(s, Get(now, id, user)).row.value.user == user)
    ensures forall r :: r in AnswerTo(s, List(now, EVERYTHING.(user := user))).rows && r.id == id ==>
      AnswerTo(s, Get(now, id, user)).row == Some(r)
  {
    var q := EVERYTHING.(user := user);
    var swept := ExpireAll(s.rows, now);
    SelectedAreThose(swept, q);
    var listed := Selected(swept, q);
    forall r | r in listed && r.id == id
      ensures AnswerTo(s, Get(now, id, user)).row == Some(r) && (user.Some? ==> r.user == user)
    {
      var k :| 0 <= k < |swept| && swept[k] == r;
      FindOfDistinct(s.rows, k);
    }
    var k := Got(s.rows, now, id, user);
    if k.Some? && (user == Some("") ==> s.rows[k.value].user == user) {
      var r := s.rows[k.value];
      assert swept[k.value] == r;
      assert r in listed;
    }
  }

  /** A row as anyone can still see it at a time: of one that is due, only that it is. */
  function Settled(r: Row, now: int): Row {
    var t := Expire(r, now);
    if t.status.Expired? then t.(resolvedAt := None) else t
  }

  /** Two stores that differ only in which of the due rows have been marked. */
  ghost predicate Alike(a: State, b: State, now: int) {
    && a.executed == b.executed && |a.rows| == |b.rows|
    && forall k | 0 <= k < |a.rows| :: Settled(a.rows[k], now) == Settled(b.rows[k], now)
  }

  lemma {:induction false} SelectedAlike(a: seq<Row>, b: seq<Row>, now: int, q: Query)
    requires |a| == |b| && forall k | 0 <= k < |a| :: Settled(a[k], now) == Settled(b[k], now)
    ensures Selected(ExpireAll(a, now), q) == Selected(ExpireAll(b, now), q)
  {
    if a != [] {
      var n := |a| - 1;
      SelectedAlike(a[..n], b[..n], now, q);
      assert ExpireAll(a, now)[..n] == ExpireAll(a[..n], now) && ExpireAll(b, now)[..n] == ExpireAll(b[..n], now);
      assert Settled(a[n], now) == Settled(b[n], now);
    }
  }

  lemma {:induction false} FindAlike(a: seq<Row>, b: seq<Row>, id: string)
    requires |a| == |b| && forall k | 0 <= k < |a| :: a[k].id == b[k].id
    ensures Find(a, id) == Find(b, id)
  {
    if a != [] {
      FindAlike(a[..|a| - 1], b[..|a| - 1], id);
    }
  }

  lemma AlikeLater(a: State, b: State, now: int, later: int)
    requires Alike(a, b, now) && now <= later
    ensures Alike(a, b, later)
  {
  }

  lemma SweepIsAlike(s: State, now: int)
    ensures Alike(s, s.(rows := ExpireAll(s.rows, now)), now)
  {
  }

  lemma AlikeRow(a: State, b: State, now: int, k: nat)
    requires Alike(a, b, now) && k < |a.rows|
    ensures var r, t := a.rows[k], b.rows[k];
      && r.id == t.id && r.user == t.user && (IsLive(r, now) || IsLive(t, now) ==> r == t)
      && Settled(Expire(r, now), now) == Settled(t, now) == Settled(Expire(t, now), now)
  {
  }

  /** The guard lets the same calls through, and what it marks makes no difference. */
  lemma AlikeGuard(a: State, b: State, now: int, id: string, user: Option<string>)
    requires Alike(a, b, now)
    ensures var k := Got(a.rows, now, id, user);
      Got(b.rows, now, id, user) == k && (k.Some? ==> k.value < |b.rows| && a.rows[k.value] == b.rows[k.value])
    ensures Alike(a.(rows := AfterGet(a.rows, now, id, user)), b.(rows := AfterGet(b.rows, now, id, user)), now)
  {
    forall k | 0 <= k < |a.rows| ensures a.rows[k].id == b.rows[k].id {
      AlikeRow(a, b, now, k);
    }
    FindAlike(a.rows, b.rows, id);
    hide Find;
    var k := Find(a.rows, id);
    if k.Some? {
      AlikeRow(a, b, now, k.value);
    }
  }

  lemma AlikeUpdate(a: State, b: State, now: int, k: nat, r: Row)
    requires Alike(a, b, now) && k < |a.rows|
    ensures Alike(a.(rows := a.rows[k := r]), b.(rows := b.rows[k := r]), now)
  {
  }

  lemma AlikeCreate(a: State, b: State, e: Event)
    requires Alike(a, b, e.now) && e.Create?
    ensures AnswerTo(a, e) == AnswerTo(b, e) && Alike(Next(a, e), Next(b, e), e.now)
  {
    forall k | 0 <= k < |a.rows| ensures a.rows[k].id == b.rows[k].id {
      AlikeRow(a, b, e.now, k);
    }
    FindAlike(a.rows, b.rows, e.id);
    hide Find;
  }

  lemma AlikeList(a: State, b: State, e: Event)
    requires Alike(a, b, e.now) && e.List?
    ensures AnswerTo(a, e) == AnswerTo(b, e) && Alike(Next(a, e), Next(b, e), e.now)
  {
    SelectedAlike(a.rows, b.rows, e.now, e.query);
    hide Selected;
    forall k | 0 <= k < |a.rows|
      ensures Settled(Expire(a.rows[k], e.now), e.now) == Settled(Expire(b.rows[k], e.now), e.now)
    {
      AlikeRow(a, b, e.now, k);
    }
  }

  lemma AlikeGuarded(a: State, b: State, e: Event)
    requires Alike(a, b, e.now) && (e.Get? || e.Resolve? || e.Execute?)
    ensures AnswerTo(a, e) == AnswerTo(b, e) && Alike(Next(a, e), Next(b, e), e.now)
  {
    hide Got, AfterGet, Alike;
    var user := if e.Execute? then Some(e.owner) else e.user;
    AlikeGuard(a, b, e.now, e.id, user);
    var k := Got(a.rows, e.now, e.id, user);
    if k.Some? && !e.Get? {
      var r := Resolved(a.rows[k.value], if e.Execute? then VerdictOf(e.outcome) else e.verdict, e.now);
      AlikeUpdate(a, b, e.now, k.value, r);
      var a1, b1 := a.(rows := a.rows[k.value := r]), b.(rows := b.rows[k.value := r]);
      AlikeExecuted(a1, b1, e.now, e.id);
      AlikeExecuted(a, b, e.now, e.id);
    }
  }

  lemma AlikeExecuted(a: State, b: State, now: int, id: string)
    requires Alike(a, b, now)
    ensures a.executed == b.executed && Alike(a.(executed := a.executed + [id]), b.(executed := b.executed + [id]), now)
  {
  }

  /** Asking for the latest one marks a row only if it is due. */
  lemma AfterLatestIsAlike(s: State, now: int, q: Query)
    ensures Alike(s, s.(rows := AfterLatest(s.rows, now, q)), now)
  {
    hide Selected, Find, Matches;
  }

  lemma AlikeLatest(a: State, b: State, e: Event)
    requires Alike(a, b, e.now) && e.AskLatest?
    ensures Alike(Next(a, e), Next(b, e), e.now)
  {
    AfterLatestIsAlike(a, e.now, e.query);
    AfterLatestIsAlike(b, e.now, e.query);
    hide AfterLatest;
  }

  /** Every effect, and every answer but the latest pending one, is the same for stores that are alike. */
  lemma AlikeStep(a: State, b: State, e: Event)
    requires Alike(a, b, e.now)
    ensures Alike(Next(a, e), Next(b, e), e.now)
    ensures !e.AskLatest? ==> AnswerTo(a, e) == AnswerTo(b, e)
  {
    hide Alike, Next, AnswerTo;
    if e.Create? {
      AlikeCreate(a, b, e);
    } else if e.List? {
      AlikeList(a, b, e);
    } else if e.AskLatest? {
      AlikeLatest(a, b, e);
    } else {
      AlikeGuarded(a, b, e);
    }
  }

  /** A run in which the due rows are swept before some of the events. */
  function RunSwept(s: State, events: seq<Event>, sweeps: nat -> bool): State {
    if events == [] then s
    else
      var n := |events| - 1;
      var t := RunSwept(s, events[..n], sweeps);
      Next(if sweeps(n) then t.(rows := ExpireAll(t.rows, events[n].now)) else t, events[n])
  }

  ghost predicate ClockRuns(events: seq<Event>) {
    forall i, j | 0 <= i <= j < |events| :: events[i].now <= events[j].now
  }

  /**
   Whether and when due confirmations are swept makes no difference to what is executed in any run, to any
   row but for the mark of a due one, nor to any answer but that to a question for the latest one.
   */
  lemma {:induction false} SweepsAreUnseen(s: State, events: seq<Event>, sweeps: nat -> bool, now: int)
    requires ClockRuns(events) && forall e | e in events :: e.now <= now
    ensures Alike(Run(s, events), RunSwept(s, events, sweeps), now)
    ensures forall e: Event :: !e.AskLatest? && e.now == now ==>
      AnswerTo(Run(s, events), e) == AnswerTo(RunSwept(s, events, sweeps), e)
  {
    var a, b := Run(s, events), RunSwept(s, events, sweeps);
    if events != [] {
      var n := |events| - 1;
      var e := events[n];
      SweepsAreUnseen(s, events[..n], sweeps, e.now);
      var a0, b0 := Run(s, events[..n]), RunSwept(s, events[..n], sweeps);
      var b1 := if sweeps(n) then b0.(rows := ExpireAll(b0.rows, e.now)) else b0;
      SweepIsAlike(b0, e.now);
      assert Alike(a0, b1, e.now);
      AlikeStep(a0, b1, e);
      AlikeLater(a, b, e.now, now);
    }
    forall e: Event | !e.AskLatest? && e.now == now ensures AnswerTo(a, e) == AnswerTo(b, e) {
      AlikeStep(a, b, e);
    }
  }

  // ---------- The latest one ----------

  /** What is left of a selection when the due rows are gone. */
  lemma LiveSelected(rows: seq<Row>, now: int, q: Query, r: Row)
    ensures r in Selected(ExpireAll(rows, now), q) <==> r in Selected(rows, q) && IsLive(r, now)
  {
    SelectedAreThose(rows, q);
    SelectedAreThose(ExpireAll(rows, now), q);
    if r in ExpireAll(rows, now) && r.status.Pending? {
      var k :| 0 <= k < |rows| && ExpireAll(rows, now)[k] == r;
      assert rows[k] == r;
    }
    if r in rows && IsLive(r, now) {
      var k :| 0 <= k < |rows| && rows[k] == r;
      assert ExpireAll(rows, now)[k] == r;
    }
  }

  /** One of the orders in which the database may give the pending rows of a query: those of the same second in any. */
  ghost predicate IsSelection(rows: seq<Row>, q: Query, selected: seq<Row>) {
    NewestFirst(selected) && forall r :: r in selected <==> r in Selected(rows, q)
  }

  lemma SelectedIsSelection(rows: seq<Row>, q: Query)
    ensures IsSelection(rows, q, Selected(rows, q))
  {
    SelectedAreThose(rows, q);
  }

  /**
   An answer to the question for the latest one is right: a newest one of the list, and none only if the list is
   empty.
   */
  ghost predicate IsRight(answer: Option<Row>, rows: seq<Row>, now: int, q: Query) {
    var listed := Selected(ExpireAll(rows, now), q);
    match answer
    case Some(r) => r in listed && forall t | t in listed :: r.createdAt >= t.createdAt
    case None => listed == []
  }

  /**
   The answer is right if and only if the first of the unswept rows, in whatever order, is live or none of them
   is.
   */
  lemma LatestIsRightIff(rows: seq<Row>, now: int, q: Query, selected: seq<Row>)
    requires IsSelection(rows, q, selected)
    ensures IsRight(LatestOf(selected, now), rows, now, q) <==>
      (selected != [] && !IsLive(selected[0], now) ==> forall r | r in selected :: !IsLive(r, now))
  {
    var listed := Selected(ExpireAll(rows, now), q);
    forall r ensures r in listed <==> r in selected && IsLive(r, now) {
      LiveSelected(rows, now, q, r);
    }
    hide Selected, ExpireAll;
    if listed != [] {
      assert listed[0] in listed;
    }
    if selected != [] {
      assert selected[0] in selected;
    }
    forall r | r in selected ensures selected[0].createdAt >= r.createdAt {
      var k :| 0 <= k < |selected| && selected[k] == r;
    }
  }

  /** The same of the answer of the store, which takes the rows in a certain order. */
  lemma AnswerIsRightIff(s: State, now: int, q: Query)
    ensures var selected := Selected(s.rows, q);
      IsRight(AnswerTo(s, AskLatest(now, q)).row, s.rows, now, q) <==>
      (selected != [] && !IsLive(selected[0], now) ==> forall r | r in selected :: !IsLive(r, now))
  {
    SelectedIsSelection(s.rows, q);
    LatestIsRightIff(s.rows, now, q, Selected(s.rows, q));
    hide Selected, IsRight;
  }

  /** With equal lifetimes it always is. */
  lemma LatestWithEqualLifetimes(rows: seq<Row>, now: int, q: Query, selected: seq<Row>, lifetime: int)
    requires IsSelection(rows, q, selected)
    requires forall r | r in rows && r.status.Pending? && Matches(r, q) :: r.expiresAt == r.createdAt + lifetime
    ensures IsRight(LatestOf(selected, now), rows, now, q)
  {
    LatestIsRightIff(rows, now, q, selected);
    SelectedAreThose(rows, q);
    if selected != [] && !IsLive(selected[0], now) {
      forall r | r in selected ensures !IsLive(r, now) {
        var k :| 0 <= k < |selected| && selected[k] == r;
        assert selected[0] in selected;
        assert selected[0].createdAt >= r.createdAt;
      }
    }
  }

  /** With mixed ones it can miss a live confirmation. */
  lemma LatestCanMiss()
    ensures var elder := Row("a", Some("u"), "", None, "", Pending, 0, 100, None);
      var young := Row("b", Some("u"), "", None, "", Pending, 10, 20, None);
      Latest([elder, young], 50, EVERYTHING) == None && elder in Selected(ExpireAll([elder, young], 50), EVERYTHING)
  {
    var elder := Row("a", Some("u"), "", None, "", Pending, 0, 100, None);
    var young := Row("b", Some("u"), "", None, "", Pending, 10, 20, None);
    var rows := [elder, young];
    assert rows[..1] == [elder] && rows[..1][..0] == [];
    assert Selected([], EVERYTHING) == [];
    assert Selected(rows[..1], EVERYTHING) == [elder];
    assert Selected(rows, EVERYTHING) == [young, elder];
    assert Selected(rows, EVERYTHING)[1] == elder;
    LiveSelected(rows, 50, EVERYTHING, elder);
  }

  /** A blank user is given another one's confirmation by its id, and does not find it in the list. */
  lemma BlankUserGetsOthers()
    ensures var rows := [Row("a", Some("u"), "", None, "", Pending, 0, 100, None)];
      && AnswerTo(State(rows, []), Get(50, "a", Some(""))) == One(Some(rows[0]))
      && AnswerTo(State(rows, []), List(50, EVERYTHING.(user := Some("")))) == Rows([])
  {
    var r := Row("a", Some("u"), "", None, "", Pending, 0, 100, None);
    assert [r][..0] == [];
    assert ExpireAll([r], 50) == [r];
    assert Find([r], "a") == Some(0);
    assert Some("u") != Some("");
    assert Selected([r], EVERYTHING.(user := Some(""))) == [];
  }
}
