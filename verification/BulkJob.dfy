/**
 A job that processes confirmations one by one: backend/app/services/background_jobs.py. Between two of
 its commits anything else may happen to the confirmations, other jobs included.
 */
module BulkJob {
  import opened Wrappers
  import opened Confirmations

  datatype JobStatus = Queued | Running | Completed | Partial | JobFailed

  datatype Result = Result(id: string, confirmed: bool)

  /** A row of `background_jobs`. */
  datatype Job = Job(status: JobStatus, total: nat, processed: nat, succeeded: nat, failed: int, results: seq<Result>)

  /**
   What happens around one id: what others did since the last commit, when it is processed, and how its action
   goes.
   */
  datatype Turn = Turn(others: seq<Event>, now: int, outcome: Outcome)

  /** `create_bulk_confirmation_job` */
  function NewJob(ids: seq<string>): Job {
    Job(Queued, |ids|, 0, 0, 0, [])
  }

  function Successes(results: seq<Result>): (n: nat)
    ensures n <= |results|
  {
    if results == [] then 0
    else Successes(results[..|results| - 1]) + if results[|results| - 1].confirmed then 1 else 0
  }

  // ---------- What happens to the confirmations ----------

  /** All events of a job over its first ids. */
  function Trace(ids: seq<string>, owner: string, turns: seq<Turn>): seq<Event>
    requires |ids| == |turns|
  {
    if ids == [] then []
    else
      var n := |ids| - 1;
      Trace(ids[..n], owner, turns[..n]) + turns[n].others + [Execute(turns[n].now, ids[n], owner, turns[n].outcome)]
  }

  lemma {:induction false} RunConcat(s: State, a: seq<Event>, b: seq<Event>)
    ensures Run(s, a + b) == Run(Run(s, a), b)
  {
    hide Next;
    if b == [] {
      assert a + b == a;
    } else {
      var n := |b| - 1;
      RunConcat(s, a, b[..n]);
      var both := a + b;
      assert both[..|a| + n] == a + b[..n] && both[|a| + n] == b[n];
    }
  }

  lemma RunTrace(s: State, ids: seq<string>, owner: string, turns: seq<Turn>)
    requires |ids| == |turns| > 0
    ensures var n := |ids| - 1;
      Run(s, Trace(ids, owner, turns)) ==
      Next(Run(Run(s, Trace(ids[..n], owner, turns[..n])), turns[n].others),
        Execute(turns[n].now, ids[n], owner, turns[n].outcome))
  {
    var n := |ids| - 1;
    var before, e := Trace(ids[..n], owner, turns[..n]), Execute(turns[n].now, ids[n], owner, turns[n].outcome);
    RunConcat(s, before + turns[n].others, [e]);
    RunConcat(s, before, turns[n].others);
    assert [e][..0] == [];
  }

  // ---------- The job ----------

  /** The job's row after a number of ids: one result per id in their order, and counters that add up. */
  ghost predicate CountsAddUp(job: Job, ids: seq<string>, n: nat) {
    && n <= |ids| && job.total == |ids|
    && |job.results| == n && (forall k | 0 <= k < n :: job.results[k].id == ids[k])
    && job.processed == n && job.succeeded == Successes(job.results)
    && job.succeeded + job.failed == job.processed
  }

  function FinalStatus(job: Job): JobStatus {
    if job.succeeded == job.total then Completed else if job.succeeded == 0 then JobFailed else Partial
  }

  /** The rows that a job commits up to its `k`-th id: running, and one more result after each id. */
  ghost predicate HistoryUpTo(commits: seq<Job>, ids: seq<string>, k: nat) {
    && k <= |ids| && |commits| == k + 1
    && (forall n | 0 <= n <= k :: commits[n].status == Running && CountsAddUp(commits[n], ids, n))
    && (forall n | 0 <= n < k :: commits[n].results <= commits[n + 1].results)
  }

  /** All the rows that a job commits: the last one has its final status. */
  ghost predicate IsHistory(commits: seq<Job>, ids: seq<string>) {
    && |commits| == |ids| + 2
    && HistoryUpTo(commits[..|ids| + 1], ids, |ids|)
    && commits[|ids| + 1] == commits[|ids|].(status := FinalStatus(commits[|ids|]))
  }

  /** The confirmations just before the job processes its `k`-th id. */
  function Before(s: State, ids: seq<string>, owner: string, turns: seq<Turn>, k: nat): State
    requires k < |ids| == |turns|
  {
    Run(Run(s, Trace(ids[..k], owner, turns[..k])), turns[k].others)
  }

  /** The results say which of the ids were executed with success. */
  ghost predicate TellsSuccess(results: seq<Result>, s: State, ids: seq<string>, owner: string, turns: seq<Turn>) {
    && |results| <= |ids| == |turns|
    && forall k | 0 <= k < |results| :: results[k].confirmed <==>
         AnswerTo(Before(s, ids, owner, turns, k), Execute(turns[k].now, ids[k], owner, turns[k].outcome))
           == Success(true)
  }

  class BackgroundJob {
    var job: Job
    /** The committed values of `job`. */
    var commits: seq<Job>

    constructor (ids: seq<string>)
      ensures job == NewJob(ids) && commits == []
    {
      job := NewJob(ids);
      commits := [];
    }

    method Commit()
      modifies this`commits
      ensures commits == old(commits) + [job]
    {
      commits := commits + [job];
    }

    /** What others do to the confirmations, event by event. */
    method Others(store: Store, events: seq<Event>)
      modifies store
      ensures store.Value() == Run(old(store.Value()), events)
    {
      ghost var s := store.Value();
      for k := 0 to |events|
        invariant store.Value() == Run(s, events[..k])
      {
        assert events[..k + 1][..k] == events[..k];
        var next := Next(store.Value(), events[k]);
        store.rows, store.executed := next.rows, next.executed;
      }
      assert events[..|events|] == events;
    }

    /** The row after one more result. */
    method Count(results: seq<Result>, ghost ids: seq<string>)
      requires job.status == Running && HistoryUpTo(commits, ids, |job.results|) && commits[|job.results|] == job
      requires |job.results| < |ids| && |results| == |job.results| + 1
      requires results[..|job.results|] == job.results && results[|job.results|].id == ids[|job.results|]
      modifies this
      ensures job.status == Running && job.results == results && HistoryUpTo(commits, ids, |results|)
        && commits[|results|] == job
    {
      assert CountsAddUp(job, ids, |job.results|);
      var succeeded := Successes(results);
      job := job.(processed := |results|, succeeded := succeeded, failed := |results| - succeeded, results := results);
      assert CountsAddUp(job, ids, |results|);
      Commit();
    }

    /** One round of the loop. */
    method Turn(store: Store, id: string, owner: string, turn: Turn) returns (ok: bool)
      modifies store
      ensures store.Value() == Next(Run(old(store.Value()), turn.others), Execute(turn.now, id, owner, turn.outcome))
      ensures Success(ok) ==
        AnswerTo(Run(old(store.Value()), turn.others), Execute(turn.now, id, owner, turn.outcome))
    {
      Others(store, turn.others);
      ok := store.ProcessConfirmation(turn.now, id, owner, turn.outcome);
    }

    /** `process_bulk_confirmation_job_in_session` */
    method Process(store: Store, ids: seq<string>, owner: string, turns: seq<Turn>)
      requires job == NewJob(ids) && commits == [] && |turns| == |ids|
      modifies this, store
      ensures store.Value() == Run(old(store.Value()), Trace(ids, owner, turns))
      ensures IsHistory(commits, ids) && job == commits[|ids| + 1]
      ensures TellsSuccess(job.results, old(store.Value()), ids, owner, turns)
    {
      hide Run, Next, AnswerTo, Trace;
      ghost var s0 := store.Value();
      TraceOfNone(s0, owner, turns);
      job := job.(status := Running);
      Commit();
      var results: seq<Result> := [];
      for k := 0 to |ids|
        invariant job.status == Running && job.results == results && |results| == k
        invariant HistoryUpTo(commits, ids, k) && commits[k] == job
        invariant store.Value() == Run(s0, Trace(ids[..k], owner, turns[..k]))
        invariant TellsSuccess(results, s0, ids, owner, turns)
      {
        RunTrace(s0, ids[..k + 1], owner, turns[..k + 1]);
        assert ids[..k + 1][..k] == ids[..k] && turns[..k + 1][..k] == turns[..k];
        var ok := Turn(store, ids[k], owner, turns[k]);
        results := results + [Result(ids[k], ok)];
        Count(results, ids);
      }
      assert ids[..|ids|] == ids && turns[..|turns|] == turns;
      job := job.(status := FinalStatus(job));
      ghost var running := commits;
      Commit();
      assert commits[..|ids| + 1] == running;
    }
  }

  lemma TraceOfNone(s: State, owner: string, turns: seq<Turn>)
    ensures Run(s, Trace([], owner, turns[..0])) == s
  {
  }

  // ---------- What a finished job means ----------

  lemma {:induction false} SuccessesCount(results: seq<Result>)
    ensures Successes(results) == |results| <==> forall k | 0 <= k < |results| :: results[k].confirmed
    ensures Successes(results) == 0 <==> forall k | 0 <= k < |results| :: !results[k].confirmed
  {
    if results != [] {
      SuccessesCount(results[..|results| - 1]);
    }
  }

  /**
   The final status is completed if all of the ids succeeded, failed if none did, and partial otherwise; an
   empty job is completed.
   */
  lemma StatusTells(commits: seq<Job>, ids: seq<string>)
    requires IsHistory(commits, ids)
    ensures var job := commits[|ids| + 1];
      && |job.results| == |ids| && (forall k | 0 <= k < |ids| :: job.results[k].id == ids[k])
      && (job.status == Completed <==> forall k | 0 <= k < |ids| :: job.results[k].confirmed)
      && (job.status == JobFailed <==> ids != [] && forall k | 0 <= k < |ids| :: !job.results[k].confirmed)
      && job.status in {Completed, JobFailed, Partial}
  {
    var job := commits[|ids| + 1];
    assert commits[..|ids| + 1][|ids|] == commits[|ids|];
    assert CountsAddUp(commits[|ids|], ids, |ids|);
    SuccessesCount(job.results);
  }

  /** A row keeps its place, its id and its owner. */
  lemma {:induction false} RowKeepsIdentity(s: State, events: seq<Event>, k: nat)
    requires k < |s.rows|
    ensures |s.rows| <= |Run(s, events).rows|
    ensures Run(s, events).rows[k].id == s.rows[k].id && Run(s, events).rows[k].user == s.rows[k].user
  {
    if events != [] {
      var before, e := Run(s, events[..|events| - 1]), events[|events| - 1];
      RowKeepsIdentity(s, events[..|events| - 1], k);
      StepOfRows(before, e);
      hide Next;
      assert RowStep(before.rows[k], Next(before, e).rows[k]);
    }
  }

  /** Processing an id leaves the owner's confirmation resolved. */
  lemma ExecuteResolves(s: State, e: Event, k: nat)
    requires e.Execute? && e.owner != "" && DistinctIds(s.rows)
    requires k < |s.rows| && s.rows[k].id == e.id && s.rows[k].user == Some(e.owner)
    ensures |Next(s, e).rows| == |s.rows| && !Next(s, e).rows[k].status.Pending?
    ensures AnswerTo(s, e) == Success(true) ==> s.rows[k].status.Pending?
  {
  }

  /** A confirmation stays resolved through what others do and one more turn. */
  lemma StaysResolved(s: State, others: seq<Event>, e: Event, k: nat)
    requires k < |s.rows| && !s.rows[k].status.Pending?
    ensures var t := Next(Run(s, others), e); k < |t.rows| && !t.rows[k].status.Pending?
  {
    ResolvedStays(s, others, k);
    StepOfRows(Run(s, others), e);
    hide Run, Next;
    assert RowStep(Run(s, others).rows[k], Next(Run(s, others), e).rows[k]);
  }

  /** The turn for a confirmation's own id resolves it. */
  lemma OwnTurnResolves(s: State, others: seq<Event>, e: Event, k: nat)
    requires Inv(s) && e.Execute? && e.owner != ""
    requires k < |s.rows| && s.rows[k].id == e.id && s.rows[k].user == Some(e.owner)
    ensures var t := Next(Run(s, others), e); k < |t.rows| && !t.rows[k].status.Pending?
  {
    hide Run, Next;
    RunKeepsInv(s, others);
    RowKeepsIdentity(s, others, k);
    ExecuteResolves(Run(s, others), e, k);
  }

  /**
   Once the job has processed an id of its owner, the confirmation is not pending any more, whatever happened in
   between.
   */
  lemma {:induction false} NoneLeftPending(s: State, ids: seq<string>, owner: string, turns: seq<Turn>, k: nat)
    requires |ids| == |turns| && Inv(s) && owner != ""
    requires k < |s.rows| && s.rows[k].id in ids && s.rows[k].user == Some(owner)
    ensures var t := Run(s, Trace(ids, owner, turns)); k < |t.rows| && !t.rows[k].status.Pending?
  {
    hide Run, Next, Trace, Inv;
    var n := |ids| - 1;
    var events, e := Trace(ids[..n], owner, turns[..n]), Execute(turns[n].now, ids[n], owner, turns[n].outcome);
    RunTrace(s, ids, owner, turns);
    RowKeepsIdentity(s, events, k);
    if s.rows[k].id in ids[..n] {
      NoneLeftPending(s, ids[..n], owner, turns[..n], k);
      StaysResolved(Run(s, events), turns[n].others, e, k);
    } else {
      assert ids == ids[..n] + [ids[n]];
      RunKeepsInv(s, events);
      OwnTurnResolves(Run(s, events), turns[n].others, e, k);
    }
  }

  /** What one turn of the job does to the confirmations, if nobody else does anything, is only to its owner's rows. */
  lemma ExecuteTouchesOwn(s: State, e: Event, k: nat)
    requires e.Execute? && k < |s.rows| && (e.owner == "" || s.rows[k].user != Some(e.owner))
    ensures |Next(s, e).rows| == |s.rows| && Next(s, e).rows[k] == s.rows[k]
    ensures e.owner == "" ==> Next(s, e) == s && AnswerTo(s, e) == Success(false)
  {
  }

  /**
   Whatever others do between two commits, a turn of the job itself touches no row of another user, and a
   job without an owner touches nothing.
   */
  lemma TurnTouchesOwn(s: State, ids: seq<string>, owner: string, turns: seq<Turn>, n: nat, k: nat)
    requires n < |ids| == |turns|
    requires k < |Before(s, ids, owner, turns, n).rows|
    requires owner == "" || Before(s, ids, owner, turns, n).rows[k].user != Some(owner)
    ensures var before, after := Before(s, ids, owner, turns, n), Run(s, Trace(ids[..n + 1], owner, turns[..n + 1]));
      && |after.rows| == |before.rows| && after.rows[k] == before.rows[k]
      && (owner == "" ==> after == before)
  {
    RunTrace(s, ids[..n + 1], owner, turns[..n + 1]);
    assert ids[..n + 1][..n] == ids[..n] && turns[..n + 1][..n] == turns[..n];
    hide Run, Next, Trace;
    ExecuteTouchesOwn(Before(s, ids, owner, turns, n), Execute(turns[n].now, ids[n], owner, turns[n].outcome), k);
  }

  ghost predicate Alone(turns: seq<Turn>) {
    forall k | 0 <= k < |turns| :: turns[k].others == []
  }

  /** Other users' confirmations are untouched, and nobody's are touched by a job without an owner. */
  lemma {:induction false} OthersUntouched(s: State, ids: seq<string>, owner: string, turns: seq<Turn>, k: nat)
    requires |ids| == |turns| && Alone(turns)
    requires k < |s.rows| && (owner == "" || s.rows[k].user != Some(owner))
    ensures var t := Run(s, Trace(ids, owner, turns)); |t.rows| == |s.rows| && t.rows[k] == s.rows[k]
  {
    if ids != [] {
      var n := |ids| - 1;
      OthersUntouched(s, ids[..n], owner, turns[..n], k);
      RunAlone(s, ids, owner, turns);
      ExecuteTouchesOwn(Before(s, ids, owner, turns, n), Execute(turns[n].now, ids[n], owner, turns[n].outcome), k);
    }
  }

  /** The actions that succeed are those of the confirmed results, in their order. */
  function ConfirmedIds(results: seq<Result>): seq<string> {
    if results == [] then []
    else
      var last := results[|results| - 1];
      ConfirmedIds(results[..|results| - 1]) + if last.confirmed then [last.id] else []
  }

  lemma ExecuteLogs(s: State, e: Event)
    requires e.Execute?
    ensures Next(s, e).executed == s.executed + if AnswerTo(s, e) == Success(true) then [e.id] else []
  {
  }

  lemma RunAlone(s: State, ids: seq<string>, owner: string, turns: seq<Turn>)
    requires |ids| == |turns| > 0 && Alone(turns)
    ensures var n := |ids| - 1;
      && Before(s, ids, owner, turns, n) == Run(s, Trace(ids[..n], owner, turns[..n]))
      && Run(s, Trace(ids, owner, turns)) ==
        Next(Before(s, ids, owner, turns, n), Execute(turns[n].now, ids[n], owner, turns[n].outcome))
  {
    RunTrace(s, ids, owner, turns);
    assert turns[|ids| - 1].others == [];
    hide Next, Trace;
  }

  /** `a` is what is left of `b` when some of its elements are taken out. */
  predicate IsSubsequence(a: seq<string>, b: seq<string>) {
    if a == [] then true
    else if b == [] then false
    else
      var frontA, frontB := a[..|a| - 1], b[..|b| - 1];
      IsSubsequence(a, frontB) || (a[|a| - 1] == b[|b| - 1] && IsSubsequence(frontA, frontB))
  }

  lemma {:induction false} SubsequenceOfMore(a: seq<string>, b: seq<string>, more: seq<string>)
    requires IsSubsequence(a, b)
    ensures IsSubsequence(a, b + more)
  {
    if more == [] {
      assert b + more == b;
    } else {
      SubsequenceOfMore(a, b, more[..|more| - 1]);
      assert (b + more)[..|b + more| - 1] == b + more[..|more| - 1];
    }
  }

  lemma SubsequenceOneMore(a: seq<string>, b: seq<string>, others: seq<string>, last: seq<string>)
    requires IsSubsequence(a, b) && |last| <= 1
    ensures IsSubsequence(a + last, b + others + last)
  {
    SubsequenceOfMore(a, b, others);
    if last != [] {
      assert (a + last)[..|a|] == a && (b + others + last)[..|b + others|] == b + others;
    } else {
      assert a + last == a && b + others + last == b + others;
    }
  }

  /** A part of what has no repetition has none, and only elements of it. */
  lemma {:induction false} SubsequenceIsDistinct(a: seq<string>, b: seq<string>)
    requires IsSubsequence(a, b) && forall i, j | 0 <= i < j < |b| :: b[i] != b[j]
    ensures forall i, j | 0 <= i < j < |a| :: a[i] != a[j]
    ensures forall x | x in a :: x in b
  {
    if a != [] {
      var frontA, frontB := a[..|a| - 1], b[..|b| - 1];
      assert a == frontA + [a[|a| - 1]] && b == frontB + [b[|b| - 1]];
      if IsSubsequence(a, frontB) {
        SubsequenceIsDistinct(a, frontB);
      } else {
        SubsequenceIsDistinct(frontA, frontB);
        forall i | 0 <= i < |frontA| ensures a[i] != a[|a| - 1] {
          assert frontA[i] in frontA;
          var j :| 0 <= j < |frontB| && frontB[j] == frontA[i];
          assert b[j] != b[|b| - 1];
        }
      }
    }
  }

  lemma {:induction false} ExecutedGrows(s: State, events: seq<Event>) returns (more: seq<string>)
    ensures Run(s, events).executed == s.executed + more
  {
    if events == [] {
      more := [];
    } else {
      more := ExecutedGrows(s, events[..|events| - 1]);
      var before, e := Run(s, events[..|events| - 1]), events[|events| - 1];
      StepOfExecuted(before, e);
      more := if Next(before, e).executed == before.executed then more else more + [e.id];
    }
  }

  /** Exactly the confirmed results of a turn are new among the executed ids, after what others executed before it. */
  lemma TurnExecutes(s: State, ids: seq<string>, owner: string, turns: seq<Turn>, results: seq<Result>)
    returns (others: seq<string>)
    requires |ids| == |turns| == |results| > 0
    requires TellsSuccess(results, s, ids, owner, turns) && forall k | 0 <= k < |ids| :: results[k].id == ids[k]
    ensures var n := |ids| - 1;
      Run(s, Trace(ids, owner, turns)).executed ==
      Run(s, Trace(ids[..n], owner, turns[..n])).executed + others + if results[n].confirmed then [ids[n]] else []
    ensures turns[|ids| - 1].others == [] ==> others == []
  {
    var n := |ids| - 1;
    RunTrace(s, ids, owner, turns);
    others := ExecutedGrows(Run(s, Trace(ids[..n], owner, turns[..n])), turns[n].others);
    ExecuteLogs(Before(s, ids, owner, turns, n), Execute(turns[n].now, ids[n], owner, turns[n].outcome));
    hide Next, Trace, AnswerTo;
  }

  /**
   The confirmed results are, in their order, among the ids that were executed since the job began; they
   are all of them if nobody else executed any.
   */
  lemma {:induction false} ResultsAreExecuted(s: State, ids: seq<string>, owner: string, turns: seq<Turn>,
                                              results: seq<Result>)
    returns (added: seq<string>)
    requires |ids| == |turns| == |results|
    requires TellsSuccess(results, s, ids, owner, turns) && forall k | 0 <= k < |ids| :: results[k].id == ids[k]
    ensures Run(s, Trace(ids, owner, turns)).executed == s.executed + added
      && IsSubsequence(ConfirmedIds(results), added)
    ensures Alone(turns) ==> added == ConfirmedIds(results)
  {
    hide Run, Next, Trace, AnswerTo, Before, IsSubsequence, ConfirmedIds;
    if ids == [] {
      assert turns == turns[..0];
      TraceOfNone(s, owner, turns);
      added := [];
      NothingConfirmed(results);
    } else {
      var n := |ids| - 1;
      SuccessOfPrefix(results, s, ids, owner, turns, n);
      var earlier := ResultsAreExecuted(s, ids[..n], owner, turns[..n], results[..n]);
      var others := TurnExecutes(s, ids, owner, turns, results);
      var last := if results[n].confirmed then [ids[n]] else [];
      added := earlier + others + last;
      ConfirmedOneMore(results);
      SubsequenceOneMore(ConfirmedIds(results[..n]), earlier, others, last);
    }
  }

  lemma NothingConfirmed(results: seq<Result>)
    requires results == []
    ensures ConfirmedIds(results) == [] && IsSubsequence([], [])
  {
  }

  lemma ConfirmedOneMore(results: seq<Result>)
    requires results != []
    ensures var n := |results| - 1;
      ConfirmedIds(results) == ConfirmedIds(results[..n]) + if results[n].confirmed then [results[n].id] else []
  {
  }

  /**
   However often an id is repeated, and whatever other jobs do meanwhile, its action succeeds at most once, and
   not if it ever succeeded before.
   */
  lemma NoIdSucceedsTwice(s: State, ids: seq<string>, owner: string, turns: seq<Turn>, results: seq<Result>)
    requires |ids| == |turns| == |results| && Inv(s)
    requires TellsSuccess(results, s, ids, owner, turns) && forall k | 0 <= k < |ids| :: results[k].id == ids[k]
    ensures var confirmed, executed := ConfirmedIds(results), Run(s, Trace(ids, owner, turns)).executed;
      && (forall i, j | 0 <= i < j < |confirmed| :: confirmed[i] != confirmed[j])
      && (forall i, j | 0 <= i < j < |executed| :: executed[i] != executed[j])
      && forall id | id in confirmed :: id in executed && id !in s.executed
  {
    var added := ResultsAreExecuted(s, ids, owner, turns, results);
    RunKeepsInv(s, Trace(ids, owner, turns));
    hide Run, Trace, ConfirmedIds, TellsSuccess, DistinctIds;
    DistinctAfter(s.executed, added);
    SubsequenceIsDistinct(ConfirmedIds(results), added);
  }

  lemma DistinctAfter(front: seq<string>, more: seq<string>)
    requires var all := front + more; forall i, j | 0 <= i < j < |all| :: all[i] != all[j]
    ensures forall i, j | 0 <= i < j < |more| :: more[i] != more[j]
    ensures forall x | x in more :: x !in front
  {
    var all := front + more;
    forall i, j | 0 <= i < j < |more| ensures more[i] != more[j] {
      assert all[|front| + i] == more[i] && all[|front| + j] == more[j];
    }
    forall i, j | 0 <= i < |front| && 0 <= j < |more| ensures front[i] != more[j] {
      assert all[i] == front[i] && all[|front| + j] == more[j];
    }
  }

  lemma SuccessOfPrefix(results: seq<Result>, s: State, ids: seq<string>, owner: string, turns: seq<Turn>, n: nat)
    requires TellsSuccess(results, s, ids, owner, turns) && n <= |results|
    ensures TellsSuccess(results[..n], s, ids[..n], owner, turns[..n])
  {
    forall k | 0 <= k < n ensures Before(s, ids[..n], owner, turns[..n], k) == Before(s, ids, owner, turns, k) {
      assert ids[..n][..k] == ids[..k] && turns[..n][..k] == turns[..k];
    }
  }
}
