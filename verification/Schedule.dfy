/**
 When briefings are sent: `send_briefing` and `maybe_send_due_briefing` of backend/app/services/briefing.py.
 A call is one step; what happens to the message, and whether the process survives, is an input of the step.
 Nothing is kept in memory between calls, so a restart changes nothing.
 */
module Schedule {
  datatype RunStatus = Pending | Sent | Skipped | Failed
  datatype Reason = Auto | Test | Manual | AlreadySent | LateCutoff

  /** A row of `briefing_runs`; dates are day numbers in the user's time zone. */
  datatype Row = Row(user: string, date: int, status: RunStatus, reason: Reason)

  datatype Message = Message(user: string, date: int, reason: Reason)

  /** The local date, and the time of the day in microseconds. */
  datatype Moment = Moment(date: int, time: int)

  datatype Config = Config(enabled: bool, sendOnStartup: bool, time: int, lateCutoff: int)

  datatype Outcome =
    | NoPayload            // building the briefing raises
    | DiesBeforeSending    // the process ends with the row still pending
    | NotDelivered         // there is no chat, or sending raises
    | DiesAfterSending     // the message is out, and the process ends
    | NotSettled           // the message is out, and saving the snapshots raises
    | Delivered

  datatype State = State(rows: seq<Row>, messages: seq<Message>)

  datatype Event =
    | Tick(user: string, now: Moment, cfg: Config, startup: bool, weekendAllowed: bool, outcome: Outcome)
    | Send(user: string, now: Moment, reason: Reason, force: bool, outcome: Outcome)

  // ---------- One call ----------

  /** `_sent_today` */
  predicate SentToday(rows: seq<Row>, user: string, date: int) {
    Row(user, date, Sent, Auto) in rows
  }

  /** `_skipped_today` for the late cutoff */
  predicate SkippedToday(rows: seq<Row>, user: string, date: int) {
    Row(user, date, Skipped, LateCutoff) in rows
  }

  predicate GoesOut(outcome: Outcome) {
    outcome in {DiesAfterSending, NotSettled, Delivered}
  }

  /** What the row of a call says in the end. */
  function FinalStatus(outcome: Outcome): RunStatus {
    match outcome
    case Delivered => Sent
    case NotDelivered => Failed
    case NotSettled => Failed
    case _ => Pending
  }

  function Attempted(s: State, user: string, date: int, reason: Reason, outcome: Outcome): State {
    if outcome.NoPayload? then s
    else State(s.rows + [Row(user, date, FinalStatus(outcome), reason)],
               if GoesOut(outcome) then s.messages + [Message(user, date, reason)] else s.messages)
  }

  function AfterSend(s: State, user: string, date: int, reason: Reason, force: bool, outcome: Outcome): State {
    if reason.Auto? && !force && SentToday(s.rows, user, date)
    then s.(rows := s.rows + [Row(user, date, Skipped, AlreadySent)])
    else Attempted(s, user, date, reason, outcome)
  }

  /** The scheduler wants a briefing at this time of this day. */
  predicate IsDue(rows: seq<Row>, e: Event)
    requires e.Tick?
  {
    && e.cfg.enabled && (e.startup ==> e.cfg.sendOnStartup) && e.weekendAllowed
    && !SentToday(rows, e.user, e.now.date)
    && e.cfg.time <= e.now.time
  }

  function Next(s: State, e: Event): State {
    match e
    case Send(user, now, reason, force, outcome) => AfterSend(s, user, now.date, reason, force, outcome)
    case Tick(user, now, cfg, _, _, outcome) =>
      if !IsDue(s.rows, e) then s
      else if now.time < cfg.lateCutoff then Attempted(s, user, now.date, Auto, outcome)
      else if SkippedToday(s.rows, user, now.date) then s
      else s.(rows := s.rows + [Row(user, now.date, Skipped, LateCutoff)])
  }

  class Briefings {
    var rows: seq<Row>
    var messages: seq<Message>

    function Value(): State
      reads this
    {
      State(rows, messages)
    }

    /** `_record_run`: the index of the new row. */
    method Record(row: Row) returns (k: nat)
      modifies this
      ensures rows == old(rows) + [row] && k == |old(rows)| && messages == old(messages)
    {
      k := |rows|;
      rows := rows + [row];
    }

    /** `send_briefing` */
    method SendBriefing(user: string, now: Moment, reason: Reason, force: bool, outcome: Outcome)
      modifies this
      ensures Value() == AfterSend(old(Value()), user, now.date, reason, force, outcome)
    {
      if reason.Auto? && !force && SentToday(rows, user, now.date) {
        var _ := Record(Row(user, now.date, Skipped, AlreadySent));
        return;
      }
      if outcome.NoPayload? {
        return;
      }
      var k := Record(Row(user, now.date, Pending, reason));
      if outcome.DiesBeforeSending? {
        return;
      }
      if outcome.NotDelivered? {
        rows := rows[k := rows[k].(status := Failed)];
        return;
      }
      messages := messages + [Message(user, now.date, reason)];
      if outcome.DiesAfterSending? {
        return;
      }
      rows := rows[k := rows[k].(status := Sent)];
      if outcome.NotSettled? {
        rows := rows[k := rows[k].(status := Failed)];
      }
    }

    /** `maybe_send_due_briefing` */
    method MaybeSendDue(user: string, now: Moment, cfg: Config, startup: bool, weekendAllowed: bool, outcome: Outcome)
      modifies this
      ensures Value() == Next(old(Value()), Tick(user, now, cfg, startup, weekendAllowed, outcome))
    {
      if !cfg.enabled || (startup && !cfg.sendOnStartup) || !weekendAllowed {
        return;
      }
      if SentToday(rows, user, now.date) {
        return;
      }
      if now.time < cfg.time {
        return;
      }
      if now.time >= cfg.lateCutoff {
        if !SkippedToday(rows, user, now.date) {
          var _ := Record(Row(user, now.date, Skipped, LateCutoff));
        }
        return;
      }
      SendBriefing(user, now, Auto, false, outcome);
    }
  }

  /**
   A call of `send_briefing`, by whomever: it sends, unless it is an automatic one of a day that has had its own and
   is not forced; what becomes of the message is in the row.
   */
  lemma SendsUnlessSent(s: State, e: Event)
    requires e.Send?
    ensures var t, today := Next(s, e), e.now.date;
      if e.reason == Auto && !e.force && Row(e.user, today, Sent, Auto) in s.rows then
        t == State(s.rows + [Row(e.user, today, Skipped, AlreadySent)], s.messages)
      else
        && t.messages == s.messages +
             (if e.outcome in {DiesAfterSending, NotSettled, Delivered} then [Message(e.user, today, e.reason)] else [])
        && (e.outcome == NoPayload ==> t.rows == s.rows)
        && (e.outcome == Delivered ==> t.rows == s.rows + [Row(e.user, today, Sent, e.reason)])
        && (e.outcome in {NotDelivered, NotSettled} ==> t.rows == s.rows + [Row(e.user, today, Failed, e.reason)])
        && (e.outcome in {DiesBeforeSending, DiesAfterSending} ==>
             t.rows == s.rows + [Row(e.user, today, Pending, e.reason)])
  {
  }

  /** A tick after the late cutoff sends nothing, and records that once, if the day would have had a briefing. */
  lemma LateTickIsRecorded(s: State, e: Event)
    requires e.Tick? && e.now.time >= e.cfg.time && e.now.time >= e.cfg.lateCutoff
    ensures var t, late := Next(s, e), Row(e.user, e.now.date, Skipped, LateCutoff);
      && t.messages == s.messages
      && t.rows ==
           if && e.cfg.enabled && (e.startup ==> e.cfg.sendOnStartup) && e.weekendAllowed
              && Row(e.user, e.now.date, Sent, Auto) !in s.rows && late !in s.rows
           then s.rows + [late] else s.rows
  {
  }

  // ---------- All runs ----------

  function Run(s: State, events: seq<Event>): State {
    if events == [] then s else Next(Run(s, events[..|events| - 1]), events[|events| - 1])
  }

  function Count<T(==)>(s: seq<T>, x: T): nat {
    multiset(s)[x]
  }

  /** A step adds at most one row and at most one message, and changes none. */
  lemma StepAdds(s: State, e: Event)
    ensures s.rows <= Next(s, e).rows && |Next(s, e).rows| <= |s.rows| + 1
    ensures s.messages <= Next(s, e).messages && |Next(s, e).messages| <= |s.messages| + 1
  {
  }

  /** What has been recorded stays recorded. */
  lemma {:induction false} RowsStay(s: State, events: seq<Event>)
    ensures s.rows <= Run(s, events).rows && s.messages <= Run(s, events).messages
  {
    if events != [] {
      RowsStay(s, events[..|events| - 1]);
      StepAdds(Run(s, events[..|events| - 1]), events[|events| - 1]);
    }
  }

  /** A step records a second automatic briefing of a day exactly if it is forced to send one that has been sent. */
  predicate SendsAgain(s: State, e: Event) {
    e.Send? && e.reason.Auto? && e.force && e.outcome.Delivered? && SentToday(s.rows, e.user, e.now.date)
  }

  ghost predicate OncePerDay(s: State) {
    forall user, date ::
      Count(s.rows, Row(user, date, Sent, Auto)) <= 1 && Count(s.rows, Row(user, date, Skipped, LateCutoff)) <= 1
  }

  lemma CountOneMore<T>(s: seq<T>, y: T, x: T)
    ensures Count(s + [y], x) == Count(s, x) + if x == y then 1 else 0
    ensures Count(s, x) > 0 <==> x in s
  {
  }

  /** The row that a step adds, if it adds one. */
  lemma StepRow(s: State, e: Event) returns (row: Row)
    ensures Next(s, e).rows == s.rows || Next(s, e).rows == s.rows + [row]
    ensures row.status.Sent? && row.reason.Auto? ==>
      row.user == e.user && row.date == e.now.date && (SendsAgain(s, e) <==> SentToday(s.rows, row.user, row.date))
    ensures row.status.Skipped? && row.reason.LateCutoff? ==> !SkippedToday(s.rows, row.user, row.date)
    ensures Next(s, e).rows == s.rows ==> !SendsAgain(s, e)
    ensures SendsAgain(s, e) ==> row == Row(e.user, e.now.date, Sent, Auto)
  {
    row := if Next(s, e).rows == s.rows then Row("", 0, Pending, Auto) else Next(s, e).rows[|s.rows|];
  }

  lemma StepKeepsOncePerDay(s: State, e: Event)
    requires OncePerDay(s)
    ensures OncePerDay(Next(s, e)) <==> !SendsAgain(s, e)
  {
    var t := Next(s, e);
    var row := StepRow(s, e);
    if t.rows == s.rows + [row] {
      forall user, date
        ensures Count(t.rows, Row(user, date, Skipped, LateCutoff)) <= 1
        ensures !SendsAgain(s, e) ==> Count(t.rows, Row(user, date, Sent, Auto)) <= 1
      {
        CountOneMore(s.rows, row, Row(user, date, Skipped, LateCutoff));
        CountOneMore(s.rows, row, Row(user, date, Sent, Auto));
      }
      if SendsAgain(s, e) {
        CountOneMore(s.rows, row, Row(e.user, e.now.date, Sent, Auto));
        assert Count(t.rows, Row(e.user, e.now.date, Sent, Auto)) == 2;
      }
    }
  }

  lemma OncePerDayBefore(s: State, e: Event)
    requires OncePerDay(Next(s, e))
    ensures OncePerDay(s)
  {
  }

  ghost predicate NeverSendsAgain(s: State, events: seq<Event>) {
    forall k | 0 <= k < |events| :: !SendsAgain(Run(s, events[..k]), events[k])
  }

  lemma NeverOneMore(s: State, events: seq<Event>)
    requires events != []
    ensures var n := |events| - 1;
      NeverSendsAgain(s, events) <==> NeverSendsAgain(s, events[..n]) && !SendsAgain(Run(s, events[..n]), events[n])
  {
    var before := events[..|events| - 1];
    forall k | 0 <= k < |before| ensures before[..k] == events[..k] && before[k] == events[k] {
    }
  }

  /**
   In a run, at most one automatic briefing and one late cutoff are recorded for every user and day if and only
   if no call forces a second one.
   */
  lemma {:induction false} RunIsOncePerDayIff(s: State, events: seq<Event>)
    requires OncePerDay(s)
    ensures OncePerDay(Run(s, events)) <==> NeverSendsAgain(s, events)
  {
    if events != [] {
      var n := |events| - 1;
      RunIsOncePerDayIff(s, events[..n]);
      NeverOneMore(s, events);
      if OncePerDay(Run(s, events[..n])) {
        StepKeepsOncePerDay(Run(s, events[..n]), events[n]);
      } else if OncePerDay(Run(s, events)) {
        OncePerDayBefore(Run(s, events[..n]), events[n]);
      }
    }
  }

  /** A forced automatic briefing of a day that has one is recorded, and sent, a second time. */
  lemma ForcedIsSentTwice(user: string, now: Moment)
    ensures var event := Send(user, now, Auto, true, Delivered);
      && Run(State([], []), [event, event]).rows == [Row(user, now.date, Sent, Auto), Row(user, now.date, Sent, Auto)]
      && !OncePerDay(Run(State([], []), [event, event]))
  {
    var event := Send(user, now, Auto, true, Delivered);
    var row := Row(user, now.date, Sent, Auto);
    assert [event, event][..1] == [event] && [event][..0] == [];
    assert Run(State([], []), [event]).rows == [row];
    assert Run(State([], []), [event, event]).rows == [row, row];
    assert Count([row, row], row) == 2;
  }

  /** The callers of the repository never force an automatic briefing. */
  predicate IsFromCaller(e: Event) {
    e.Send? ==> (e.reason.Auto? && !e.force) || (e.reason in {Test, Manual} && e.force)
  }

  lemma CallersKeepOncePerDay(events: seq<Event>)
    requires forall k | 0 <= k < |events| :: IsFromCaller(events[k])
    ensures OncePerDay(Run(State([], []), events))
  {
    forall k | 0 <= k < |events| ensures !SendsAgain(Run(State([], []), events[..k]), events[k]) {
      assert IsFromCaller(events[k]);
    }
    RunIsOncePerDayIff(State([], []), events);
  }

  // ---------- When the scheduler sends ----------

  /**
   A tick attempts a briefing exactly inside the window of a day without a recorded one; past it, it only
   records that once.
   */
  lemma TickSendsIff(s: State, e: Event)
    requires e.Tick?
    ensures Next(s, e).messages != s.messages <==>
      IsDue(s.rows, e) && e.cfg.time <= e.now.time < e.cfg.lateCutoff && GoesOut(e.outcome)
    ensures Next(s, e).messages != s.messages ==>
      Next(s, e).messages == s.messages + [Message(e.user, e.now.date, Auto)] && !SentToday(s.rows, e.user, e.now.date)
  {
  }

  predicate IsUnsettled(r: Row) {
    r.status.Pending? || r.status.Failed?
  }

  /**
   Failed and pending rows, wherever they are, have no influence on what a tick does: only the settled rows
   matter.
   */
  lemma UnsettledNeverBlock(s: State, t: State, e: Event)
    requires e.Tick?
    requires forall r | !IsUnsettled(r) :: r in s.rows <==> r in t.rows
    ensures exists rows, messages ::
      && Next(s, e) == State(s.rows + rows, s.messages + messages)
      && Next(t, e) == State(t.rows + rows, t.messages + messages)
  {
    StepAdds(s, e);
    var rows, messages := Next(s, e).rows[|s.rows|..], Next(s, e).messages[|s.messages|..];
    assert SentToday(t.rows, e.user, e.now.date) <==> SentToday(s.rows, e.user, e.now.date);
    assert SkippedToday(t.rows, e.user, e.now.date) <==> SkippedToday(s.rows, e.user, e.now.date);
    assert t.rows + [] == t.rows && t.messages + [] == t.messages;
    assert Next(t, e) == State(t.rows + rows, t.messages + messages);
  }

  /**
   After a tick inside the window whose message gets through, the day is settled for good, whatever failed
   before and whatever comes.
   */
  lemma DueTickSettles(s: State, e: Event, events: seq<Event>, later: Event)
    requires e.Tick? && e.cfg.enabled && (e.startup ==> e.cfg.sendOnStartup) && e.weekendAllowed
    requires e.cfg.time <= e.now.time < e.cfg.lateCutoff && e.outcome.Delivered?
    requires later.Tick? && later.user == e.user && later.now.date == e.now.date
    ensures var t := Run(Next(s, e), events); SentToday(t.rows, e.user, e.now.date) && Next(t, later) == t
  {
    var row := Row(e.user, e.now.date, Sent, Auto);
    var t := Run(Next(s, e), events);
    RowsStay(Next(s, e), events);
    assert row in Next(s, e).rows;
    var k :| 0 <= k < |Next(s, e).rows| && Next(s, e).rows[k] == row;
    assert t.rows[k] == row;
  }

  // ---------- How many messages a user gets ----------

  function Tries(rows: seq<Row>, user: string, date: int): nat {
    Count(rows, Row(user, date, Sent, Auto)) + Count(rows, Row(user, date, Failed, Auto))
      + Count(rows, Row(user, date, Pending, Auto))
  }

  /**
   What a step adds: an automatic message only along with a row that is not skipped, and a sent row only along
   with its message.
   */
  lemma StepDelta(s: State, e: Event) returns (rows: seq<Row>, messages: seq<Message>)
    ensures Next(s, e) == State(s.rows + rows, s.messages + messages)
    ensures |rows| <= 1 && |messages| <= |rows|
    ensures messages != [] ==>
      messages[0] == Message(rows[0].user, rows[0].date, rows[0].reason) && rows[0].status in {Sent, Failed, Pending}
    ensures rows != [] && rows[0].status.Sent? ==> messages != []
  {
    var t := Next(s, e);
    StepAdds(s, e);
    rows, messages := t.rows[|s.rows|..], t.messages[|s.messages|..];
  }

  lemma StepCountsMessages(s: State, e: Event, user: string, date: int)
    ensures var t := Next(s, e);
      Count(t.messages, Message(user, date, Auto)) - Count(s.messages, Message(user, date, Auto))
      <= Tries(t.rows, user, date) - Tries(s.rows, user, date)
    ensures var t := Next(s, e);
      Count(t.rows, Row(user, date, Sent, Auto)) - Count(s.rows, Row(user, date, Sent, Auto))
      <= Count(t.messages, Message(user, date, Auto)) - Count(s.messages, Message(user, date, Auto))
  {
    var rows, messages := StepDelta(s, e);
    hide Next;
    assert s.rows + [] == s.rows && s.messages + [] == s.messages;
    if rows != [] {
      assert rows == [rows[0]];
      CountOneMore(s.rows, rows[0], Row(user, date, Sent, Auto));
      CountOneMore(s.rows, rows[0], Row(user, date, Failed, Auto));
      CountOneMore(s.rows, rows[0], Row(user, date, Pending, Auto));
    }
    if messages != [] {
      assert messages == [messages[0]];
      CountOneMore(s.messages, messages[0], Message(user, date, Auto));
    }
  }

  lemma {:induction false} RunCountsMessages(s: State, events: seq<Event>, user: string, date: int)
    ensures var t := Run(s, events);
      Count(t.messages, Message(user, date, Auto)) - Count(s.messages, Message(user, date, Auto))
      <= Tries(t.rows, user, date) - Tries(s.rows, user, date)
    ensures var t := Run(s, events);
      Count(t.rows, Row(user, date, Sent, Auto)) - Count(s.rows, Row(user, date, Sent, Auto))
      <= Count(t.messages, Message(user, date, Auto)) - Count(s.messages, Message(user, date, Auto))
  {
    if events != [] {
      var n := |events| - 1;
      RunCountsMessages(s, events[..n], user, date);
      StepCountsMessages(Run(s, events[..n]), events[n], user, date);
    }
  }

  /**
   A user gets at least the recorded automatic briefings of a day, and at most one more than there are
   unsettled ones: only a call that was not settled can make another one go out.
   */
  lemma MessagesOfADay(events: seq<Event>, user: string, date: int)
    requires forall k | 0 <= k < |events| :: IsFromCaller(events[k])
    ensures var s := Run(State([], []), events);
      && Count(s.rows, Row(user, date, Sent, Auto)) <= Count(s.messages, Message(user, date, Auto))
      && Count(s.messages, Message(user, date, Auto))
         <= 1 + Count(s.rows, Row(user, date, Failed, Auto)) + Count(s.rows, Row(user, date, Pending, Auto))
  {
    RunCountsMessages(State([], []), events, user, date);
    CallersKeepOncePerDay(events);
  }
}
