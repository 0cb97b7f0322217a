/**
 `set_user_integration`: an optimistic insert under a unique constraint, with one retry, by any number of
 callers at once. A step is one database round trip of one caller; the only deletions in the application
 are those of `normalize_ai_integrations`, which takes rows of providers that are not allowed. An update
 writes the columns whose value is not the one that the session has loaded, as the ORM does.
 */
module Upsert {
  import opened Wrappers

  const ALLOWED_PROVIDERS: set<string> := {"openai", "telegram", "trello"}

  type Id = nat
  datatype Key = Key(user: string, provider: string)

  /** What a caller stores: status, configuration, source of the credentials, time. */
  datatype Content = Content(status: string, configJson: string, credentialsSource: string, updatedAt: string)
  datatype Field = Status | ConfigJson | CredentialsSource | UpdatedAt
  datatype Row = Row(key: Key, content: Content)
  type Table = map<Id, Row>

  const ALL_FIELDS := {Status, ConfigJson, CredentialsSource, UpdatedAt}

  /** A row as a session has loaded it. */
  datatype Loaded = Loaded(id: Id, content: Content)

  /** `held`: what the session of the caller loaded before the call, and does not load again when it looks. */
  datatype Point =
    | Start(held: Option<Loaded>)
    | WillInsert
    | WillUpdate(id: Id, loaded: Content)
    | Conflicted        // the insert met the unique constraint
    | RolledBack
    | WillRetry(id: Id, loaded: Content)
    | Committed(id: Id)
    | Returned(row: Row)
    | Raised

  datatype Caller = Caller(key: Key, content: Content, newId: Id, at: Point, commits: nat)

  /** A commit that took effect: an insert, or an update of a row that the session had loaded. */
  datatype Write = Write(caller: nat, loaded: Option<Content>)

  /** `used`: the ids there have ever been. `log`: the commits that took effect, in order. */
  datatype System = System(rows: Table, used: set<Id>, callers: seq<Caller>, log: seq<Write>)

  datatype Event = Step(caller: nat) | Normalize(user: string)

  predicate Allowed(key: Key) {
    key.provider in ALLOWED_PROVIDERS
  }

  /** `get_user_integration` */
  ghost function Find(rows: Table, key: Key): (r: Option<Id>)
    ensures r.Some? ==> r.value in rows && rows[r.value].key == key
    ensures r.None? ==> forall id | id in rows :: rows[id].key != key
  {
    if exists id :: id in rows && rows[id].key == key
    then var id :| id in rows && rows[id].key == key; Some(id)
    else None
  }

  function Normalized(rows: Table, user: string): Table {
    map id | id in rows && (rows[id].key.user != user || Allowed(rows[id].key)) :: rows[id]
  }

  function MovedTo(c: Caller, at: Point): Caller {
    c.(at := at)
  }

  function AfterCommit(c: Caller, at: Point): Caller {
    c.(at := at, commits := c.commits + 1)
  }

  function Get(c: Content, f: Field): string {
    match f
    case Status => c.status
    case ConfigJson => c.configJson
    case CredentialsSource => c.credentialsSource
    case UpdatedAt => c.updatedAt
  }

  /** The columns of an INSERT are all; those of an UPDATE are those whose value is not the loaded one. */
  function Columns(loaded: Option<Content>, content: Content): set<Field> {
    set f | f in ALL_FIELDS && (loaded.None? || Get(content, f) != Get(loaded.value, f))
  }

  function Merged(was: Content, content: Content, fields: set<Field>): Content {
    Content(
      if Status in fields then content.status else was.status,
      if ConfigJson in fields then content.configJson else was.configJson,
      if CredentialsSource in fields then content.credentialsSource else was.credentialsSource,
      if UpdatedAt in fields then content.updatedAt else was.updatedAt)
  }

  /** What a session has of the row `id` after looking for it. */
  function LoadedBy(rows: Table, held: Option<Loaded>, id: Id): Content
    requires id in rows
  {
    if held.Some? && held.value.id == id then held.value.content else rows[id].content
  }

  /** A commit that updates the row `id`; if there is something to write, a row that is gone makes it raise. */
  function CommitUpdate(s: System, i: nat, id: Id, loaded: Content): System
    requires i < |s.callers|
  {
    var c := s.callers[i];
    var fields := Columns(Some(loaded), c.content);
    if id !in s.rows && fields != {} then s.(callers := s.callers[i := AfterCommit(c, Raised)])
    else s.(rows := if id in s.rows
                    then s.rows[id := s.rows[id].(content := Merged(s.rows[id].content, c.content, fields))]
                    else s.rows,
            callers := s.callers[i := AfterCommit(c, Committed(id))],
            log := s.log + [Write(i, Some(loaded))])
  }

  /** One round trip of caller `i`. */
  ghost function CallerStep(s: System, i: nat): System
    requires i < |s.callers|
  {
    var c := s.callers[i];
    match c.at
    case Start(held) =>
      var found := Find(s.rows, c.key);
      s.(callers := s.callers[i := MovedTo(c,
           if found.Some? then WillUpdate(found.value, LoadedBy(s.rows, held, found.value)) else WillInsert)])
    case WillInsert =>
      if c.newId in s.rows || Find(s.rows, c.key).Some? then s.(callers := s.callers[i := AfterCommit(c, Conflicted)])
      else s.(rows := s.rows[c.newId := Row(c.key, c.content)],
              used := s.used + {c.newId},
              callers := s.callers[i := AfterCommit(c, Committed(c.newId))],
              log := s.log + [Write(i, None)])
    case WillUpdate(id, loaded) => CommitUpdate(s, i, id, loaded)
    case Conflicted => s.(callers := s.callers[i := MovedTo(c, RolledBack)])
    case RolledBack =>
      var found := Find(s.rows, c.key);
      s.(callers := s.callers[i := MovedTo(c,
           if found.Some? then WillRetry(found.value, s.rows[found.value].content) else Raised)])
    case WillRetry(id, loaded) => CommitUpdate(s, i, id, loaded)
    case Committed(id) =>
      s.(callers := s.callers[i := MovedTo(c, if id in s.rows then Returned(s.rows[id]) else Raised)])
    case Returned(_) => s
    case Raised => s
  }

  ghost function Next(s: System, e: Event): System {
    match e
    case Step(i) => if i < |s.callers| then CallerStep(s, i) else s
    case Normalize(user) => s.(rows := Normalized(s.rows, user))
  }

  ghost function Run(s: System, events: seq<Event>): System {
    if events == [] then s else Next(Run(s, events[..|events| - 1]), events[|events| - 1])
  }

  // ---------- The invariant ----------

  ghost predicate OneRowPerKey(rows: Table) {
    forall a, b | a in rows && b in rows && rows[a].key == rows[b].key :: a == b
  }

  predicate MayInsert(at: Point) {
    at.Start? || at.WillInsert?
  }

  /** New ids are unique, as `uuid4` makes them. */
  ghost predicate FreshIds(s: System) {
    && (forall i, j | 0 <= i < j < |s.callers| :: s.callers[i].newId != s.callers[j].newId)
    && (forall i | 0 <= i < |s.callers| && MayInsert(s.callers[i].at) :: s.callers[i].newId !in s.used)
    && s.rows.Keys <= s.used
    && (forall i | 0 <= i < |s.callers| :: PointsAtOwnRow(s.rows, s.used, s.callers[i]))
  }

  /** The id that a caller holds was never another key's. */
  predicate PointsAtOwnRow(rows: Table, used: set<Id>, c: Caller) {
    var id := match c.at
      case WillUpdate(id, _) => Some(id)
      case WillRetry(id, _) => Some(id)
      case Committed(id) => Some(id)
      case _ => None;
    id.Some? ==> id.value in used && (id.value in rows ==> rows[id.value].key == c.key)
  }

  ghost predicate IsInitial(s: System) {
    && OneRowPerKey(s.rows) && FreshIds(s) && s.log == []
    && forall i | 0 <= i < |s.callers| :: s.callers[i].at.Start? && s.callers[i].commits == 0
  }

  predicate IsRowOf(rows: Table, id: Id, key: Key) {
    id in rows && rows[id].key == key
  }

  /** What a caller for an allowed provider knows. */
  ghost predicate CallerKnows(rows: Table, c: Caller) {
    match c.at
    case Start(_) => c.commits == 0
    case WillInsert => c.commits == 0
    case WillUpdate(id, _) => c.commits == 0 && IsRowOf(rows, id, c.key)
    case Conflicted => c.commits == 1 && Find(rows, c.key).Some?
    case RolledBack => c.commits == 1 && Find(rows, c.key).Some?
    case WillRetry(id, _) => c.commits == 1 && IsRowOf(rows, id, c.key)
    case Committed(id) => 1 <= c.commits <= 2 && IsRowOf(rows, id, c.key)
    case Returned(row) => 1 <= c.commits <= 2 && row.key == c.key && Find(rows, c.key).Some?
    case Raised => false
  }

  predicate HasCommitted(c: Caller) {
    c.at.Committed? || c.at.Returned?
  }

  predicate Writes(s0: System, w: Write, key: Key, f: Field) {
    && w.caller < |s0.callers| && s0.callers[w.caller].key == key
    && f in Columns(w.loaded, s0.callers[w.caller].content)
  }

  /** A field of the row of `key` as the table has it. */
  ghost function FieldOf(rows: Table, key: Key, f: Field): Option<string> {
    var id := Find(rows, key);
    if id.Some? then Some(Get(rows[id.value].content, f)) else None
  }

  /** The value that the last of these commits to write the field gave it, or, before any, the one it had at first. */
  ghost function LastValue(s0: System, log: seq<Write>, key: Key, f: Field): Option<string> {
    if log == [] then FieldOf(s0.rows, key, f)
    else if Writes(s0, log[|log| - 1], key, f) then Some(Get(s0.callers[log[|log| - 1].caller].content, f))
    else LastValue(s0, log[..|log| - 1], key, f)
  }

  ghost predicate FieldsAreLastWritten(s0: System, s: System) {
    forall key, f | Allowed(key) :: FieldOf(s.rows, key, f) == LastValue(s0, s.log, key, f)
  }

  ghost predicate SameCallers(s0: System, s: System) {
    |s.callers| == |s0.callers| && forall i | 0 <= i < |s.callers| ::
      s.callers[i].key == s0.callers[i].key && s.callers[i].content == s0.callers[i].content
        && s.callers[i].newId == s0.callers[i].newId
  }

  predicate Logged(log: seq<Write>, i: nat) {
    exists k | 0 <= k < |log| :: log[k].caller == i
  }

  /** The log has exactly the callers whose commit took effect, each once. */
  ghost predicate LogRecordsCommits(s: System) {
    && (forall a, b | 0 <= a < b < |s.log| :: s.log[a].caller != s.log[b].caller)
    && (forall k | 0 <= k < |s.log| :: s.log[k].caller < |s.callers| &&
          (HasCommitted(s.callers[s.log[k].caller]) || s.callers[s.log[k].caller].at.Raised?))
    && (forall i | 0 <= i < |s.callers| && HasCommitted(s.callers[i]) :: Logged(s.log, i))
  }

  ghost predicate Invariant(s0: System, s: System) {
    && OneRowPerKey(s.rows) && FreshIds(s) && SameCallers(s0, s)
    && (forall i | 0 <= i < |s.callers| && Allowed(s.callers[i].key) :: CallerKnows(s.rows, s.callers[i]))
    && FieldsAreLastWritten(s0, s)
    && LogRecordsCommits(s)
  }

  // ---------- Every step keeps it ----------

  lemma FindIs(rows: Table, key: Key, id: Id)
    requires OneRowPerKey(rows) && IsRowOf(rows, id, key)
    ensures Find(rows, key) == Some(id)
  {
  }

  ghost predicate KeepsAllowedRows(rows: Table, rows': Table) {
    forall id, key | Allowed(key) && IsRowOf(rows, id, key) :: IsRowOf(rows', id, key)
  }

  lemma KnowsStays(rows: Table, rows': Table, c: Caller)
    requires KeepsAllowedRows(rows, rows') && Allowed(c.key) && CallerKnows(rows, c)
    ensures CallerKnows(rows', c)
  {
    if Find(rows, c.key).Some? {
      assert IsRowOf(rows, Find(rows, c.key).value, c.key);
      assert IsRowOf(rows', Find(rows, c.key).value, c.key);
    }
  }

  /** A step that leaves the rows of allowed keys as they are. */
  lemma FieldStays(rows: Table, rows': Table, key: Key, f: Field)
    requires OneRowPerKey(rows) && OneRowPerKey(rows')
    requires forall id :: (IsRowOf(rows, id, key) <==> IsRowOf(rows', id, key)) &&
                          (IsRowOf(rows, id, key) ==> rows'[id] == rows[id])
    ensures FieldOf(rows', key, f) == FieldOf(rows, key, f)
  {
  }

  /** What the step of caller `i` did to the rest of the system. */
  ghost predicate Moved(s: System, t: System, i: nat, c: Caller) {
    && i < |s.callers| && t.callers == s.callers[i := c]
    && c.key == s.callers[i].key && c.content == s.callers[i].content && c.newId == s.callers[i].newId
  }

  lemma MovedKeepsOthers(s0: System, s: System, t: System, i: nat, c: Caller)
    requires Invariant(s0, s) && Moved(s, t, i, c) && KeepsAllowedRows(s.rows, t.rows)
    requires Allowed(c.key) ==> CallerKnows(t.rows, c)
    ensures SameCallers(s0, t) && SameCallers(s, t)
    ensures forall j | 0 <= j < |t.callers| && Allowed(t.callers[j].key) :: CallerKnows(t.rows, t.callers[j])
  {
    forall j | 0 <= j < |t.callers| && Allowed(t.callers[j].key) ensures CallerKnows(t.rows, t.callers[j]) {
      if j != i {
        KnowsStays(s.rows, t.rows, s.callers[j]);
      }
    }
  }

  /** A step that writes nothing. */
  lemma QuietStepKeepsInvariant(s0: System, s: System, t: System, i: nat, c: Caller)
    requires Invariant(s0, s) && Moved(s, t, i, c) && t.rows == s.rows && t.used == s.used && t.log == s.log
    requires (Allowed(c.key) ==> CallerKnows(t.rows, c)) && PointsAtOwnRow(t.rows, t.used, c)
    requires MayInsert(c.at) ==> MayInsert(s.callers[i].at)
    requires HasCommitted(c) ==> HasCommitted(s.callers[i])
    requires Logged(s.log, i) ==> HasCommitted(c) || c.at.Raised?
    ensures Invariant(s0, t)
  {
    MovedKeepsOthers(s0, s, t, i, c);
  }

  lemma LogGrows(s: System, t: System, i: nat, c: Caller, loaded: Option<Content>)
    requires LogRecordsCommits(s) && Moved(s, t, i, c) && HasCommitted(c)
    requires t.log == s.log + [Write(i, loaded)] && !Logged(s.log, i)
    ensures LogRecordsCommits(t)
  {
    assert t.log[|s.log|].caller == i;
    forall j | 0 <= j < |t.callers| && HasCommitted(t.callers[j]) ensures Logged(t.log, j) {
      if j != i {
        var k :| 0 <= k < |s.log| && s.log[k].caller == j;
        assert t.log[k].caller == j;
      }
    }
  }

  lemma FieldOfWritten(rows: Table, rows': Table, c: Caller, id: Id, f: Field, fields: set<Field>)
    requires OneRowPerKey(rows') && OneRowPerKey(rows)
    requires if IsRowOf(rows, id, c.key)
      then rows' == rows[id := Row(c.key, Merged(rows[id].content, c.content, fields))]
      else fields == ALL_FIELDS && rows' == rows[id := Row(c.key, c.content)]
    ensures FieldOf(rows', c.key, f) == if f in fields then Some(Get(c.content, f)) else FieldOf(rows, c.key, f)
  {
    FindIs(rows', c.key, id);
    if IsRowOf(rows, id, c.key) {
      FindIs(rows, c.key, id);
    }
  }

  /** A commit of caller `i` that writes the row `id`: a new one, or some fields of the one there is. */
  ghost predicate Wrote(s: System, t: System, i: nat, c: Caller, id: Id, loaded: Option<Content>) {
    && Moved(s, t, i, c) && t.log == s.log + [Write(i, loaded)] && t.used == s.used + {id} && c.at == Committed(id)
    && if id in s.rows
       then s.rows[id].key == c.key
            && t.rows == s.rows[id := Row(c.key, Merged(s.rows[id].content, c.content, Columns(loaded, c.content)))]
       else Find(s.rows, c.key).None? && id == c.newId && id !in s.used && loaded == None
            && t.rows == s.rows[id := Row(c.key, c.content)]
  }

  lemma WriteKeepsFields(s0: System, s: System, t: System, i: nat, c: Caller, id: Id, loaded: Option<Content>)
    requires Wrote(s, t, i, c, id, loaded) && OneRowPerKey(s.rows) && OneRowPerKey(t.rows)
    requires SameCallers(s0, s) && FieldsAreLastWritten(s0, s)
    ensures FieldsAreLastWritten(s0, t)
  {
    hide OneRowPerKey;
    forall key, f | Allowed(key) ensures FieldOf(t.rows, key, f) == LastValue(s0, t.log, key, f) {
      assert FieldOf(s.rows, key, f) == LastValue(s0, s.log, key, f);
      assert t.log[..|t.log| - 1] == s.log;
      if key == c.key {
        FieldOfWritten(s.rows, t.rows, c, id, f, Columns(loaded, c.content));
      } else {
        FieldStays(s.rows, t.rows, key, f);
      }
    }
  }

  /** A commit that takes effect on a row. */
  lemma WriteKeepsInvariant(s0: System, s: System, t: System, i: nat, c: Caller, id: Id, loaded: Option<Content>)
    requires Invariant(s0, s) && Wrote(s, t, i, c, id, loaded) && !Logged(s.log, i)
    requires 1 <= c.commits && (Allowed(c.key) ==> c.commits <= 2)
    ensures Invariant(s0, t)
  {
    hide Columns, Merged, LastValue;
    assert OneRowPerKey(t.rows);
    MovedKeepsOthers(s0, s, t, i, c);
    LogGrows(s, t, i, c, loaded);
    WriteKeepsFields(s0, s, t, i, c, id, loaded);
  }

  /** A commit with nothing to write, on a row that is gone. */
  lemma EmptyCommitKeepsInvariant(s0: System, s: System, t: System, i: nat, c: Caller, id: Id, loaded: Option<Content>)
    requires Invariant(s0, s) && Moved(s, t, i, c) && t.log == s.log + [Write(i, loaded)] && !Logged(s.log, i)
    requires c.at == Committed(id) && !Allowed(c.key) && PointsAtOwnRow(s.rows, s.used, c)
    requires t.rows == s.rows && t.used == s.used
    ensures Invariant(s0, t)
  {
    MovedKeepsOthers(s0, s, t, i, c);
    LogGrows(s, t, i, c, loaded);
    assert t.log[..|t.log| - 1] == s.log;
  }

  /** `normalize_ai_integrations` takes rows away, none of them of an allowed key. */
  lemma NormalizeKeepsInvariant(s0: System, s: System, user: string)
    requires Invariant(s0, s)
    ensures Invariant(s0, s.(rows := Normalized(s.rows, user)))
  {
    var t := s.(rows := Normalized(s.rows, user));
    forall j | 0 <= j < |t.callers| && Allowed(t.callers[j].key) ensures CallerKnows(t.rows, t.callers[j]) {
      KnowsStays(s.rows, t.rows, s.callers[j]);
    }
    forall key, f | Allowed(key) ensures FieldOf(t.rows, key, f) == LastValue(s0, t.log, key, f) {
      FieldStays(s.rows, t.rows, key, f);
    }
  }

  lemma StepKeepsInvariant(s0: System, s: System, i: nat)
    requires Invariant(s0, s) && i < |s.callers|
    ensures Invariant(s0, CallerStep(s, i))
  {
    var c, t := s.callers[i], CallerStep(s, i);
    match c.at
    case Start(_) => QuietStepKeepsInvariant(s0, s, t, i, t.callers[i]);
    case WillInsert =>
      if c.newId in s.rows || Find(s.rows, c.key).Some? {
        QuietStepKeepsInvariant(s0, s, t, i, t.callers[i]);
      } else {
        WriteKeepsInvariant(s0, s, t, i, t.callers[i], c.newId, None);
      }
    case WillUpdate(id, loaded) => UpdateKeepsInvariant(s0, s, i, id, loaded);
    case Conflicted => QuietStepKeepsInvariant(s0, s, t, i, t.callers[i]);
    case RolledBack => QuietStepKeepsInvariant(s0, s, t, i, t.callers[i]);
    case WillRetry(id, loaded) => UpdateKeepsInvariant(s0, s, i, id, loaded);
    case Committed(id) => QuietStepKeepsInvariant(s0, s, t, i, t.callers[i]);
    case Returned(_) =>
    case Raised =>
  }

  lemma UpdateKeepsInvariant(s0: System, s: System, i: nat, id: Id, loaded: Content)
    requires Invariant(s0, s) && i < |s.callers|
    requires s.callers[i].at == WillUpdate(id, loaded) || s.callers[i].at == WillRetry(id, loaded)
    ensures Invariant(s0, CommitUpdate(s, i, id, loaded))
  {
    var t := CommitUpdate(s, i, id, loaded);
    if id in s.rows {
      WriteKeepsInvariant(s0, s, t, i, t.callers[i], id, Some(loaded));
    } else if Columns(Some(loaded), s.callers[i].content) == {} {
      EmptyCommitKeepsInvariant(s0, s, t, i, t.callers[i], id, Some(loaded));
    } else {
      QuietStepKeepsInvariant(s0, s, t, i, t.callers[i]);
    }
  }

  lemma {:induction false} RunKeepsInvariant(s0: System, events: seq<Event>)
    requires IsInitial(s0)
    ensures Invariant(s0, Run(s0, events))
  {
    if events != [] {
      var before, e := events[..|events| - 1], events[|events| - 1];
      RunKeepsInvariant(s0, before);
      match e
      case Step(i) =>
        if i < |Run(s0, before).callers| {
          StepKeepsInvariant(s0, Run(s0, before), i);
        }
      case Normalize(user) => NormalizeKeepsInvariant(s0, Run(s0, before), user);
    }
  }

  // ---------- What callers can rely on ----------

  /** At most one row for each user and provider, at every moment of every run. */
  lemma AtMostOneRow(s0: System, events: seq<Event>)
    requires IsInitial(s0)
    ensures OneRowPerKey(Run(s0, events).rows)
  {
    RunKeepsInvariant(s0, events);
  }

  /** A caller for an allowed provider never raises and commits at most twice, whatever the others do. */
  lemma NeverRaises(s0: System, events: seq<Event>, i: nat)
    requires IsInitial(s0) && i < |s0.callers| && Allowed(s0.callers[i].key)
    ensures var c := Run(s0, events).callers; |c| == |s0.callers| && !c[i].at.Raised? && c[i].commits <= 2
    ensures var c := Run(s0, events).callers; c[i].at.Returned? ==> c[i].commits >= 1 && Logged(Run(s0, events).log, i)
  {
    RunKeepsInvariant(s0, events);
  }

  function Rank(at: Point): nat {
    match at
    case Start(_) => 6
    case WillInsert => 5
    case WillUpdate(_, _) => 4
    case Conflicted => 4
    case RolledBack => 3
    case WillRetry(_, _) => 2
    case Committed(_) => 1
    case Returned(_) => 0
    case Raised => 0
  }

  /** A caller is never stuck: each of its steps brings it nearer to its end, and nobody else's moves it. */
  lemma CallersProgress(s: System, e: Event, i: nat)
    requires i < |s.callers|
    ensures |Next(s, e).callers| == |s.callers|
    ensures e == Step(i) && Rank(s.callers[i].at) > 0 ==> Rank(Next(s, e).callers[i].at) < Rank(s.callers[i].at)
    ensures e != Step(i) ==> Next(s, e).callers[i] == s.callers[i]
  {
  }

  function StepsOf(events: seq<Event>, i: nat): nat {
    if events == [] then 0
    else StepsOf(events[..|events| - 1], i) + if events[|events| - 1] == Step(i) then 1 else 0
  }

  lemma {:induction false} RankFalls(s0: System, events: seq<Event>, i: nat)
    requires IsInitial(s0) && i < |s0.callers|
    ensures |Run(s0, events).callers| == |s0.callers|
    ensures var rank := Rank(Run(s0, events).callers[i].at); rank == 0 || rank + StepsOf(events, i) <= 6
  {
    if events != [] {
      var before := events[..|events| - 1];
      RankFalls(s0, before, i);
      CallersProgress(Run(s0, before), events[|events| - 1], i);
    }
  }

  /**
   Six round trips of its own are enough for any caller, in any interleaving: then it has returned the row of
   its key.
   */
  lemma SixStepsSuffice(s0: System, events: seq<Event>, i: nat)
    requires IsInitial(s0) && i < |s0.callers| && Allowed(s0.callers[i].key) && StepsOf(events, i) >= 6
    ensures |Run(s0, events).callers| == |s0.callers|
    ensures var c := Run(s0, events).callers[i];
      c.at.Returned? && c.at.row.key == c.key && Logged(Run(s0, events).log, i)
  {
    RankFalls(s0, events, i);
    RunKeepsInvariant(s0, events);
  }

  /** What a caller is given when it returns is the row of its key as it is stored at that moment. */
  lemma ReturnsWhatIsStored(s0: System, events: seq<Event>, i: nat)
    requires IsInitial(s0) && i < |s0.callers| && Allowed(s0.callers[i].key)
    ensures var s := Run(s0, events);
      && |s.callers| == |s0.callers|
      && (!s.callers[i].at.Returned? && CallerStep(s, i).callers[i].at.Returned? ==>
           && Find(s.rows, s0.callers[i].key).Some?
           && CallerStep(s, i).callers[i].at.row == s.rows[Find(s.rows, s0.callers[i].key).value])
  {
    RunKeepsInvariant(s0, events);
    var s := Run(s0, events);
    if s.callers[i].at.Committed? {
      FindIs(s.rows, s.callers[i].key, s.callers[i].at.id);
    }
  }

  /** A caller that nobody interrupts stores what it was given, whether there was a row or not, and no more. */
  lemma AloneStores(s: System, i: nat)
    requires IsInitial(s) && i < |s.callers| && s.callers[i].at == Start(None)
    ensures var c, t := s.callers[i], Next(Next(Next(s, Step(i)), Step(i)), Step(i));
      && i < |t.callers| && t.callers[i].at == Returned(Row(c.key, c.content))
      && Find(t.rows, c.key).Some? && t.rows[Find(t.rows, c.key).value] == Row(c.key, c.content)
      && forall id | id in s.rows && s.rows[id].key != c.key :: id in t.rows && t.rows[id] == s.rows[id]
  {
    var c := s.callers[i];
    var s1 := Next(s, Step(i));
    var s2 := Next(s1, Step(i));
    var found := Find(s.rows, c.key);
    if found.Some? {
      var was := s.rows[found.value].content;
      assert s1.callers[i].at == WillUpdate(found.value, was);
      forall f ensures Get(Merged(was, c.content, Columns(Some(was), c.content)), f) == Get(c.content, f) {
        MergedField(was, was, c.content, f);
      }
      FieldsMakeContent(Merged(was, c.content, Columns(Some(was), c.content)), c.content);
      hide Merged, Columns;
      assert IsRowOf(s2.rows, found.value, c.key);
    } else {
      assert IsRowOf(s2.rows, c.newId, c.key);
    }
  }

  // ---------- What becomes of the fields ----------

  /** From the `k`-th on, no commit wrote the field. */
  predicate NoneWrites(s0: System, log: seq<Write>, key: Key, f: Field, k: nat) {
    forall j | k <= j < |log| :: !Writes(s0, log[j], key, f)
  }

  lemma {:induction false} LastValueIs(s0: System, log: seq<Write>, key: Key, f: Field, k: nat)
    requires k < |log| && Writes(s0, log[k], key, f) && NoneWrites(s0, log, key, f, k + 1)
    ensures LastValue(s0, log, key, f) == Some(Get(s0.callers[log[k].caller].content, f))
  {
    if k < |log| - 1 {
      LastValueIs(s0, log[..|log| - 1], key, f, k);
    }
  }

  lemma {:induction false} LastValueSkips(s0: System, log: seq<Write>, key: Key, f: Field, k: nat)
    requires k <= |log| && NoneWrites(s0, log, key, f, k)
    ensures LastValue(s0, log, key, f) == LastValue(s0, log[..k], key, f)
  {
    if k < |log| {
      LastValueSkips(s0, log[..|log| - 1], key, f, k);
      assert log[..|log| - 1][..k] == log[..k];
    } else {
      assert log[..k] == log;
    }
  }

  /**
   No write to a field is lost but to a later write of the same field: at any moment a field has the value that the
   last commit to write it gave it.
   */
  lemma LastWriteStays(s0: System, events: seq<Event>, key: Key, f: Field, k: nat)
    requires IsInitial(s0) && Allowed(key)
    requires var log := Run(s0, events).log;
      k < |log| && Writes(s0, log[k], key, f) && NoneWrites(s0, log, key, f, k + 1)
    ensures FieldOf(Run(s0, events).rows, key, f) ==
      Some(Get(s0.callers[Run(s0, events).log[k].caller].content, f))
  {
    RunKeepsInvariant(s0, events);
    LastValueIs(s0, Run(s0, events).log, key, f, k);
  }

  /** A field that no commit has written is as it was. */
  lemma UnwrittenStays(s0: System, events: seq<Event>, key: Key, f: Field)
    requires IsInitial(s0) && Allowed(key)
    requires NoneWrites(s0, Run(s0, events).log, key, f, 0)
    ensures FieldOf(Run(s0, events).rows, key, f) == FieldOf(s0.rows, key, f)
  {
    RunKeepsInvariant(s0, events);
    LastValueSkips(s0, Run(s0, events).log, key, f, 0);
  }

  /** The commit `k` of the log is the last one under `key`. */
  predicate IsLastOf(s0: System, log: seq<Write>, key: Key, k: nat) {
    && k < |log| && log[k].caller < |s0.callers| && s0.callers[log[k].caller].key == key
    && forall j | k < j < |log| && log[j].caller < |s0.callers| :: s0.callers[log[j].caller].key != key
  }

  lemma ValueAtLast(s0: System, log: seq<Write>, key: Key, f: Field, k: nat)
    requires IsLastOf(s0, log, key, k)
    ensures LastValue(s0, log, key, f) ==
      if Writes(s0, log[k], key, f) then Some(Get(s0.callers[log[k].caller].content, f))
      else LastValue(s0, log[..k], key, f)
  {
    LastValueSkips(s0, log, key, f, k + 1);
    assert log[..k + 1][..k] == log[..k];
  }

  lemma FieldsMakeContent(a: Content, b: Content)
    requires forall f :: Get(a, f) == Get(b, f)
    ensures a == b
  {
    assert Get(a, Status) == Get(b, Status) && Get(a, ConfigJson) == Get(b, ConfigJson);
    assert Get(a, CredentialsSource) == Get(b, CredentialsSource) && Get(a, UpdatedAt) == Get(b, UpdatedAt);
  }

  /** Each field that commit `k` did not write, as its value was the loaded one, still had that value then. */
  ghost predicate StillAsLoaded(s0: System, log: seq<Write>, key: Key, k: nat)
    requires k < |log| && log[k].caller < |s0.callers|
  {
    var loaded, content := log[k].loaded, s0.callers[log[k].caller].content;
    loaded.Some? ==>
      forall f | Get(content, f) == Get(loaded.value, f) ::
        LastValue(s0, log[..k], key, f) == Some(Get(loaded.value, f))
  }

  lemma RowIsContentIff(s0: System, s: System, key: Key, k: nat)
    requires Invariant(s0, s) && Allowed(key) && IsLastOf(s0, s.log, key, k)
    ensures Find(s.rows, key).Some?
    ensures s.rows[Find(s.rows, key).value] == Row(key, s0.callers[s.log[k].caller].content) <==>
      StillAsLoaded(s0, s.log, key, k)
  {
    var write, content := s.log[k], s0.callers[s.log[k].caller].content;
    assert CallerKnows(s.rows, s.callers[write.caller]);
    var row := s.rows[Find(s.rows, key).value].content;
    forall f ensures
        if write.loaded.None? || Get(content, f) != Get(write.loaded.value, f) then Get(row, f) == Get(content, f)
        else Some(Get(row, f)) == LastValue(s0, s.log[..k], key, f)
    {
      assert FieldOf(s.rows, key, f) == LastValue(s0, s.log, key, f);
      ValueAtLast(s0, s.log, key, f, k);
    }
    hide LastValue, Get, Invariant;
    if StillAsLoaded(s0, s.log, key, k) {
      FieldsMakeContent(row, content);
    }
  }

  /**
   The whole row is the last committer's content if and only if each field that it did not write, because it was what
   its session had loaded, still had that value when it committed.
   */
  lemma LastWriterWinsIff(s0: System, events: seq<Event>, key: Key, k: nat)
    requires IsInitial(s0) && Allowed(key) && IsLastOf(s0, Run(s0, events).log, key, k)
    ensures var s := Run(s0, events);
      && Find(s.rows, key).Some?
      && (s.rows[Find(s.rows, key).value] == Row(key, s0.callers[s.log[k].caller].content) <==>
           StillAsLoaded(s0, s.log, key, k))
  {
    RunKeepsInvariant(s0, events);
    RowIsContentIff(s0, Run(s0, events), key, k);
  }

  lemma RunOneMore(s: System, events: seq<Event>, event: Event)
    ensures Run(s, events + [event]) == Next(Run(s, events), event)
  {
  }

  function RaceOf(key: Key, first: Content, second: Content): System {
    System(map[], {}, [Caller(key, first, 0, Start(None), 0), Caller(key, second, 1, Start(None), 0)], [])
  }

  lemma RunOfFour(s: System, a: Event, b: Event, c: Event, d: Event)
    ensures Run(s, [a, b, c, d]) == Next(Next(Next(Next(s, a), b), c), d)
  {
    RunOneMore(s, [], a);
    RunOneMore(s, [a], b);
    RunOneMore(s, [a, b], c);
    RunOneMore(s, [a, b, c], d);
    assert [] + [a] == [a] && [a] + [b] == [a, b] && [a, b] + [c] == [a, b, c] && [a, b, c] + [d] == [a, b, c, d];
  }

  function UpdatesOf(key: Key, before: Content, first: Content, second: Content): System {
    System(map[7 := Row(key, before)], {7},
           [Caller(key, first, 0, Start(None), 0), Caller(key, second, 1, Start(None), 0)], [])
  }

  lemma MergedField(was: Content, loaded: Content, content: Content, f: Field)
    ensures Get(Merged(was, content, Columns(Some(loaded), content)), f) ==
      if Get(content, f) == Get(loaded, f) then Get(was, f) else Get(content, f)
  {
  }

  /** Both look, then both commit. */
  lemma RowAfterBoth(key: Key, before: Content, first: Content, second: Content)
    ensures var between := Merged(before, first, Columns(Some(before), first));
      Run(UpdatesOf(key, before, first, second), [Step(0), Step(1), Step(0), Step(1)]).rows ==
        map[7 := Row(key, Merged(between, second, Columns(Some(before), second)))]
  {
    var s0 := UpdatesOf(key, before, first, second);
    RunOfFour(s0, Step(0), Step(1), Step(0), Step(1));
    hide Run, Columns, Merged;
    assert IsRowOf(s0.rows, 7, key);
    var s2 := Next(Next(s0, Step(0)), Step(1));
    assert s2.callers[0].at == s2.callers[1].at == WillUpdate(7, before);
    var s3 := Next(s2, Step(0));
    assert s3.rows == map[7 := Row(key, Merged(before, first, Columns(Some(before), first)))];
  }

  /**
   Two updates whose fields mix: one changes the status and the configuration, the other, which looked before that
   was committed, the configuration alone. The row is what neither of them stored.
   */
  lemma FieldsCanMix(key: Key, before: Content, first: Content, second: Content)
    requires second.status == before.status != first.status
    requires second.configJson != first.configJson && second.configJson != before.configJson
    ensures IsInitial(UpdatesOf(key, before, first, second))
    ensures var rows := Run(UpdatesOf(key, before, first, second), [Step(0), Step(1), Step(0), Step(1)]).rows;
      && 7 in rows && rows[7].content.status == first.status && rows[7].content.configJson == second.configJson
      && rows[7].content != first && rows[7].content != second
  {
    RowAfterBoth(key, before, first, second);
    hide Run, Columns, Merged;
    var between := Merged(before, first, Columns(Some(before), first));
    MergedField(before, before, first, Status);
    MergedField(between, before, second, Status);
    MergedField(between, before, second, ConfigJson);
  }

  /** Both look, the first one inserts, the second one conflicts. */
  lemma SecondConflicts(key: Key, first: Content, second: Content)
    ensures var s := Run(RaceOf(key, first, second), [Step(0), Step(1), Step(0), Step(1)]);
      s.rows == map[0 := Row(key, first)] && |s.callers| == 2
        && s.callers[1] == Caller(key, second, 1, Conflicted, s.callers[1].commits)
  {
    var s0 := RaceOf(key, first, second);
    RunOfFour(s0, Step(0), Step(1), Step(0), Step(1));
    hide Run;
    var s2 := Next(Next(s0, Step(0)), Step(1));
    assert s2.callers == [Caller(key, first, 0, WillInsert, 0), Caller(key, second, 1, WillInsert, 0)];
    var s3 := Next(s2, Step(0));
    assert s3.rows == map[0 := Row(key, first)];
    assert IsRowOf(s3.rows, 0, key);
  }

  /** The second look can find nothing, and raise, for a provider that is not allowed. */
  lemma DisallowedCanRaise(key: Key, first: Content, second: Content)
    requires !Allowed(key)
    ensures IsInitial(RaceOf(key, first, second))
    ensures var callers := Run(RaceOf(key, first, second),
      [Step(0), Step(1), Step(0), Step(1), Step(1), Normalize(key.user), Step(1)]).callers;
      |callers| == 2 && callers[1].at == Raised
  {
    var s0 := RaceOf(key, first, second);
    var events := [Step(0), Step(1), Step(0), Step(1)];
    SecondConflicts(key, first, second);
    var s4 := Run(s0, events);
    RunOneMore(s0, events, Step(1));
    RunOneMore(s0, events + [Step(1)], Normalize(key.user));
    RunOneMore(s0, events + [Step(1), Normalize(key.user)], Step(1));
    assert events + [Step(1)] + [Normalize(key.user)] == events + [Step(1), Normalize(key.user)];
    assert events + [Step(1), Normalize(key.user)] + [Step(1)] ==
      [Step(0), Step(1), Step(0), Step(1), Step(1), Normalize(key.user), Step(1)];
    hide Run;
    var s5 := Next(s4, Step(1));
    var s6 := Next(s5, Normalize(key.user));
    assert s6.rows == map[];
  }
}
