/** How the daily briefing puts tasks into groups: `generate_payload` of backend/app/services/briefing.py. */
module Grouping {
  import opened Wrappers

  /** Times are in microseconds. */
  const DAY := 24 * 3600 * 1000000

  datatype GroupKey =
    | DeepWork | QuickTask | ReviewFollowup | CallsContact | ErrandsPersonal
    | RequiresAttention | InboxClassification | StaleInProgress | PerpetualDue | PendingConfirmations

  /** `GROUP_ORDER` */
  const GROUP_ORDER: seq<GroupKey> := [
    DeepWork, QuickTask, ReviewFollowup, CallsContact, ErrandsPersonal,
    RequiresAttention, InboxClassification, StaleInProgress, PerpetualDue, PendingConfirmations
  ]

  /** The values of the text columns that the grouping looks at; all the others are one case. */
  datatype Status = ActiveTask | OtherStatus(status: string)
  datatype Kind = Attention | Perpetual | OtherKind(kind: string)
  datatype Scope = Inbox | Personal | OtherScope(scope: string)
  datatype TrelloState = InProgress | Review | Completed | Ignored | OtherState(state: string)
  datatype Bucket = DeepBucket | CallBucket | ReviewBucket | ErrandBucket | OtherBucket(bucket: string)
  datatype Effort = DeepEffort | QuickEffort | OtherEffort(effort: string)

  datatype Task = Task(
    id: string,
    title: string,
    status: Status,
    kind: Kind,
    scope: Scope,
    trelloState: TrelloState,
    contextBucket: Bucket,
    effortBucket: Effort,
    priority: string,
    dueAt: Option<int>,
    snoozedUntil: Option<string>,
    lastTrelloActivityAt: Option<int>,
    lastTouchedAt: Option<int>,
    updatedAt: Option<int>,
    firstSeenAt: Option<int>,
    lastCheckinAt: Option<int>,
    nextCheckinAt: Option<int>)

  datatype Confirmation = Confirmation(id: string, summary: string, actionType: string, expiresAt: int)

  datatype Reason =
    | VisibleDeadline | Mentioned | RequiresFocus | LooksShort | LocalPriority
    | Classified(text: string) | IdleDays(days: int) | FirstCheckin | LastUpdateDays(days: int)

  datatype Item = Item(
    id: string,
    title: string,
    scope: Scope,
    trelloState: TrelloState,
    priority: string,
    dueAt: Option<int>,
    reason: Reason,
    suggestedScope: string,
    expiresAt: Option<int>)

  datatype Suggestion = Suggestion(scope: string, reason: string)

  datatype Config = Config(
    includeAttention: bool,
    includeInbox: bool,
    includeStale: bool,
    includePerpetuals: bool,
    includeConfirmations: bool,
    maxAttention: int,
    maxInbox: int,
    maxReviews: int,
    maxPerpetuals: int,
    maxDeepWork: int,
    maxQuickTasks: int)

  /** The time, the installation's settings, and what other services answer at this time. */
  datatype Context = Context(
    now: int,
    applyWeekend: bool,
    checkinsEnabled: bool,
    staleDays: int,
    perpetualMaxPerDay: int,
    /** `snoozed_until > now`, as the program compares the two texts */
    isLater: string -> bool,
    weekendScopeAllowed: Scope -> bool,
    weekendStaleAllowed: bool,
    weekendCheckinsAllowed: bool,
    suggest: string -> Suggestion)

  // ---------- One task ----------

  /** `_eligible_tasks` keeps the task. */
  predicate IsEligible(t: Task, c: Context) {
    && t.status.ActiveTask?
    && !t.trelloState.Completed? && !t.trelloState.Ignored?
    && !(t.snoozedUntil.Some? && c.isLater(t.snoozedUntil.value))
  }

  /** `_reference_time`: the first of the four that is known. */
  function ReferenceTime(t: Task): Option<int> {
    if t.lastTrelloActivityAt.Some? then t.lastTrelloActivityAt
    else if t.lastTouchedAt.Some? then t.lastTouchedAt
    else if t.updatedAt.Some? then t.updatedAt
    else t.firstSeenAt
  }

  /** `_is_stale_in_progress` */
  predicate IsStale(t: Task, c: Context) {
    && c.checkinsEnabled
    && t.trelloState.InProgress?
    && ReferenceTime(t).Some?
    && c.now - ReferenceTime(t).value > c.staleDays * DAY
  }

  /** `_perpetual_due` */
  predicate IsPerpetualDue(t: Task, c: Context) {
    t.kind.Perpetual? && t.nextCheckinAt.Some? && t.nextCheckinAt.value <= c.now
  }

  function DefaultReason(t: Task): Reason {
    if t.dueAt.Some? then VisibleDeadline
    else if t.kind.Attention? then Mentioned
    else if t.effortBucket.DeepEffort? then RequiresFocus
    else if t.effortBucket.QuickEffort? then LooksShort
    else LocalPriority
  }

  function StaleReason(t: Task, c: Context): Reason {
    var reference := ReferenceTime(t);
    IdleDays(if reference.Some? then (c.now - reference.value) / DAY else c.staleDays)
  }

  function PerpetualReason(t: Task, c: Context): Reason {
    if t.lastCheckinAt.None? then FirstCheckin else LastUpdateDays((c.now - t.lastCheckinAt.value) / DAY)
  }

  function SuggestionReason(s: Suggestion): Reason {
    Classified(if s.reason != "" then s.reason else "clasificación local")
  }

  /** `_task_item` */
  function TaskItem(t: Task): Item {
    Item(t.id, t.title, t.scope, t.trelloState, t.priority, t.dueAt, DefaultReason(t), "", None)
  }

  function ConfirmationItem(p: Confirmation): Item {
    var title := if p.summary != "" then p.summary else p.actionType;
    Item(p.id, title, OtherScope("confirmación"), OtherState(""), "", None, LocalPriority, "", Some(p.expiresAt))
  }

  // ---------- The routing rules, one group at a time ----------

  /** Neither a mention, nor unclassified, nor being worked on, nor perpetual. */
  predicate IsPlain(t: Task) {
    !t.kind.Attention? && !t.scope.Inbox? && !t.trelloState.InProgress? && !t.kind.Perpetual?
  }

  predicate NeedsFocus(t: Task) {
    t.contextBucket.DeepBucket? || t.effortBucket.DeepEffort?
  }

  predicate IsReview(t: Task) {
    t.contextBucket.ReviewBucket? || (t.trelloState.Review? && !t.contextBucket.CallBucket?)
  }

  predicate IsErrand(t: Task) {
    t.contextBucket.ErrandBucket? || (t.scope.Personal? && !t.contextBucket.CallBucket?)
  }

  predicate AllowedToday(t: Task, c: Context) {
    c.applyWeekend ==> c.weekendScopeAllowed(t.scope)
  }

  predicate Belongs(g: GroupKey, t: Task, cfg: Config, c: Context) {
    && IsEligible(t, c)
    && AllowedToday(t, c)
    && match g
       case RequiresAttention => t.kind.Attention? && cfg.includeAttention
       case InboxClassification => !t.kind.Attention? && t.scope.Inbox? && cfg.includeInbox
       case StaleInProgress =>
         && !t.kind.Attention? && !t.scope.Inbox? && IsStale(t, c)
         && cfg.includeStale && (c.applyWeekend ==> c.weekendStaleAllowed)
       case PerpetualDue =>
         && !t.scope.Inbox? && !t.trelloState.InProgress? && IsPerpetualDue(t, c)
         && cfg.includePerpetuals && (c.applyWeekend ==> c.weekendCheckinsAllowed)
       case DeepWork => IsPlain(t) && NeedsFocus(t)
       case CallsContact => IsPlain(t) && !NeedsFocus(t) && t.contextBucket.CallBucket?
       case ReviewFollowup => IsPlain(t) && !NeedsFocus(t) && IsReview(t)
       case ErrandsPersonal => IsPlain(t) && !NeedsFocus(t) && !IsReview(t) && IsErrand(t)
       case QuickTask => IsPlain(t) && !NeedsFocus(t) && !IsReview(t) && !IsErrand(t) && !t.contextBucket.CallBucket?
       case PendingConfirmations => false
  }

  function Limit(g: GroupKey, cfg: Config, c: Context): int {
    match g
    case DeepWork => cfg.maxDeepWork
    case QuickTask => cfg.maxQuickTasks
    case RequiresAttention => cfg.maxAttention
    case InboxClassification => cfg.maxInbox
    case PerpetualDue => if cfg.maxPerpetuals <= c.perpetualMaxPerDay then cfg.maxPerpetuals else c.perpetualMaxPerDay
    case _ => cfg.maxReviews
  }

  /** What is shown of a task in a group. */
  function Shown(g: GroupKey, t: Task, c: Context): Item {
    match g
    case InboxClassification =>
      var s := c.suggest(t.title);
      TaskItem(t).(suggestedScope := s.scope, reason := SuggestionReason(s))
    case StaleInProgress => TaskItem(t).(reason := StaleReason(t, c))
    case PerpetualDue => TaskItem(t).(reason := PerpetualReason(t, c))
    case _ => TaskItem(t)
  }

  function Rule(g: GroupKey, cfg: Config, c: Context): Task -> bool {
    t => Belongs(g, t, cfg, c)
  }

  function Filter<T>(s: seq<T>, keep: T -> bool): (r: seq<T>)
    ensures |r| <= |s|
  {
    if s == [] then []
    else Filter(s[..|s| - 1], keep) + if keep(s[|s| - 1]) then [s[|s| - 1]] else []
  }

  function Take<T>(s: seq<T>, limit: int): seq<T> {
    if limit <= 0 then [] else if |s| <= limit then s else s[..limit]
  }

  /** The tasks that belong to a group, in the order in which they came. */
  function Members(g: GroupKey, tasks: seq<Task>, cfg: Config, c: Context): seq<Task> {
    Filter(tasks, Rule(g, cfg, c))
  }

  function ShownAll(g: GroupKey, tasks: seq<Task>, c: Context): (r: seq<Item>)
    ensures |r| == |tasks| && forall k | 0 <= k < |r| :: r[k] == Shown(g, tasks[k], c)
  {
    seq(|tasks|, k requires 0 <= k < |tasks| => Shown(g, tasks[k], c))
  }

  function ConfirmationItems(pending: seq<Confirmation>): (r: seq<Item>)
    ensures |r| == |pending| && forall k | 0 <= k < |r| :: r[k] == ConfirmationItem(pending[k])
  {
    seq(|pending|, k requires 0 <= k < |pending| => ConfirmationItem(pending[k]))
  }

  /** The specification: the first `Limit` of the tasks that belong to the group, in their order. */
  function Expected(g: GroupKey, tasks: seq<Task>, cfg: Config, c: Context): seq<Item> {
    ShownAll(g, Take(Members(g, tasks, cfg, c), Limit(g, cfg, c)), c)
  }

  type Groups = map<GroupKey, seq<Item>>

  ghost predicate IsGrouping(groups: Groups, tasks: seq<Task>, pending: seq<Confirmation>, cfg: Config, c: Context) {
    && (forall g: GroupKey :: g in groups)
    && (forall g: GroupKey :: g != PendingConfirmations ==> groups[g] == Expected(g, tasks, cfg, c))
    && groups[PendingConfirmations] == if cfg.includeConfirmations then ConfirmationItems(pending) else []
  }

  // ---------- Filtering ----------

  lemma FilterOneMore<T>(s: seq<T>, x: T, keep: T -> bool)
    ensures Filter(s + [x], keep) == Filter(s, keep) + if keep(x) then [x] else []
  {
  }

  lemma {:induction false} FilterConcat<T>(a: seq<T>, b: seq<T>, keep: T -> bool)
    ensures Filter(a + b, keep) == Filter(a, keep) + Filter(b, keep)
  {
    if b == [] {
      assert a + b == a;
    } else {
      var front, last := b[..|b| - 1], b[|b| - 1];
      FilterConcat(a, front, keep);
      FilterOneMore(a + front, last, keep);
      FilterOneMore(front, last, keep);
      assert a + b == a + front + [last] && b == front + [last];
    }
  }

  lemma {:induction false} FilterNone<T>(s: seq<T>, keep: T -> bool)
    requires forall x | x in s :: !keep(x)
    ensures Filter(s, keep) == []
  {
    if s != [] {
      FilterNone(s[..|s| - 1], keep);
    }
  }

  /** Filtering by a weaker test first makes no difference. */
  lemma {:induction false} FilterTwice<T(!new)>(s: seq<T>, first: T -> bool, keep: T -> bool)
    requires forall x :: keep(x) ==> first(x)
    ensures Filter(Filter(s, first), keep) == Filter(s, keep)
  {
    if s != [] {
      var front, last := s[..|s| - 1], s[|s| - 1];
      FilterTwice(front, first, keep);
      if first(last) {
        FilterOneMore(Filter(front, first), last, keep);
      } else {
        assert Filter(s, first) == Filter(front, first);
      }
    }
  }

  /** An element that is kept comes after those that are kept before it. */
  lemma {:induction false} FilterAt<T>(s: seq<T>, keep: T -> bool, k: nat)
    requires k < |s| && keep(s[k])
    ensures var place := |Filter(s[..k], keep)|; place < |Filter(s, keep)| && Filter(s, keep)[place] == s[k]
  {
    var n := |s| - 1;
    if k < n {
      FilterAt(s[..n], keep, k);
      assert s[..n][..k] == s[..k];
    }
  }

  /** What is kept at a place is an element that is kept, with just so many before it. */
  lemma {:induction false} FilterFrom<T>(s: seq<T>, keep: T -> bool, m: nat) returns (k: nat)
    requires m < |Filter(s, keep)|
    ensures k < |s| && keep(s[k]) && s[k] == Filter(s, keep)[m] && |Filter(s[..k], keep)| == m
  {
    var n := |s| - 1;
    if m < |Filter(s[..n], keep)| {
      k := FilterFrom(s[..n], keep, m);
      assert s[..n][..k] == s[..k];
    } else {
      k := n;
    }
  }

  // ---------- The loops ----------

  function EmptyGroups(): Groups {
    map[DeepWork := [], QuickTask := [], ReviewFollowup := [], CallsContact := [], ErrandsPersonal := [],
        RequiresAttention := [], InboxClassification := [], StaleInProgress := [],
        PerpetualDue := [], PendingConfirmations := []]
  }

  lemma EmptyGroupsAreEmpty(g: GroupKey)
    ensures g in EmptyGroups() && EmptyGroups()[g] == []
  {
  }

  /** `_append_limited` */
  function AppendLimited(groups: Groups, g: GroupKey, item: Item, limit: int): Groups
    requires g in groups
  {
    if |groups[g]| < limit then groups[g := groups[g] + [item]] else groups
  }

  /** What a round of the loop over the tasks does to one group. */
  function Placed(was: seq<Item>, g: GroupKey, t: Task, cfg: Config, c: Context): seq<Item> {
    if Belongs(g, t, cfg, c) && |was| < Limit(g, cfg, c) then was + [Shown(g, t, c)] else was
  }

  /** The last branches of a round. */
  method PlacePlain(groups: Groups, t: Task, cfg: Config, c: Context) returns (r: Groups)
    requires forall g: GroupKey :: g in groups
    requires IsEligible(t, c) && AllowedToday(t, c) && IsPlain(t)
    ensures forall g: GroupKey :: g in r && r[g] == Placed(groups[g], g, t, cfg, c)
  {
    var item := TaskItem(t);
    if t.contextBucket.DeepBucket? || t.effortBucket.DeepEffort? {
      r := AppendLimited(groups, DeepWork, item, cfg.maxDeepWork);
    } else if t.contextBucket.CallBucket? {
      r := AppendLimited(groups, CallsContact, item, cfg.maxReviews);
    } else if t.contextBucket.ReviewBucket? || t.trelloState.Review? || t.trelloState.InProgress? {
      r := AppendLimited(groups, ReviewFollowup, item, cfg.maxReviews);
    } else if t.scope.Personal? || t.contextBucket.ErrandBucket? {
      r := AppendLimited(groups, ErrandsPersonal, item, cfg.maxReviews);
    } else {
      r := AppendLimited(groups, QuickTask, item, cfg.maxQuickTasks);
    }
  }

  /** One round of the loop over the tasks. */
  method Place(groups: Groups, t: Task, cfg: Config, c: Context) returns (r: Groups)
    requires forall g: GroupKey :: g in groups
    requires IsEligible(t, c)
    ensures forall g: GroupKey :: g in r && r[g] == Placed(groups[g], g, t, cfg, c)
  {
    r := groups;
    if c.applyWeekend && !c.weekendScopeAllowed(t.scope) {
      return;
    }
    var item := TaskItem(t);
    if t.kind.Attention? {
      if cfg.includeAttention {
        r := AppendLimited(r, RequiresAttention, item, cfg.maxAttention);
      }
    } else if t.scope.Inbox? {
      if !cfg.includeInbox {
        return;
      }
      var suggestion := c.suggest(t.title);
      item := item.(suggestedScope := suggestion.scope);
      item := item.(reason := SuggestionReason(suggestion));
      r := AppendLimited(r, InboxClassification, item, cfg.maxInbox);
    } else if t.trelloState.InProgress? && IsStale(t, c) {
      if !cfg.includeStale || (c.applyWeekend && !c.weekendStaleAllowed) {
        return;
      }
      item := item.(reason := StaleReason(t, c));
      r := AppendLimited(r, StaleInProgress, item, cfg.maxReviews);
    } else if t.trelloState.InProgress? {
      return;
    } else if t.kind.Perpetual? {
      if !cfg.includePerpetuals || (c.applyWeekend && !c.weekendCheckinsAllowed) {
        return;
      }
      var limit := if cfg.maxPerpetuals <= c.perpetualMaxPerDay then cfg.maxPerpetuals else c.perpetualMaxPerDay;
      if IsPerpetualDue(t, c) && |r[PerpetualDue]| < limit {
        item := item.(reason := PerpetualReason(t, c));
        r := r[PerpetualDue := r[PerpetualDue] + [item]];
      }
    } else {
      r := PlacePlain(r, t, cfg, c);
    }
  }

  lemma ExpectedOneMore(g: GroupKey, tasks: seq<Task>, t: Task, cfg: Config, c: Context)
    ensures Expected(g, tasks + [t], cfg, c) == Placed(Expected(g, tasks, cfg, c), g, t, cfg, c)
  {
    FilterOneMore(tasks, t, Rule(g, cfg, c));
    hide Belongs, Filter, Shown;
  }

  function EligibleRule(c: Context): Task -> bool {
    t => IsEligible(t, c)
  }

  /** `_eligible_tasks` */
  method EligibleTasks(candidates: seq<Task>, c: Context) returns (tasks: seq<Task>)
    ensures tasks == Filter(candidates, EligibleRule(c))
    ensures forall t | t in tasks :: IsEligible(t, c)
  {
    tasks := [];
    for i := 0 to |candidates|
      invariant tasks == Filter(candidates[..i], EligibleRule(c))
      invariant forall t | t in tasks :: IsEligible(t, c)
    {
      var t := candidates[i];
      assert candidates[..i + 1] == candidates[..i] + [t];
      FilterOneMore(candidates[..i], t, EligibleRule(c));
      if !t.status.ActiveTask? || t.trelloState.Completed? || t.trelloState.Ignored? {
        continue;
      }
      if t.snoozedUntil.Some? && c.isLater(t.snoozedUntil.value) {
        continue;
      }
      tasks := tasks + [t];
    }
    assert candidates[..|candidates|] == candidates;
  }

  /** A round keeps every group as specified. */
  lemma RoundKeepsExpected(was: Groups, groups: Groups, g: GroupKey, tasks: seq<Task>, i: nat, cfg: Config, c: Context)
    requires i < |tasks| && g in was && g in groups
    requires was[g] == Expected(g, tasks[..i], cfg, c)
    requires groups[g] == Placed(was[g], g, tasks[i], cfg, c)
    ensures groups[g] == Expected(g, tasks[..i + 1], cfg, c)
  {
    ExpectedOneMore(g, tasks[..i], tasks[i], cfg, c);
    assert tasks[..i + 1] == tasks[..i] + [tasks[i]];
  }

  /** The loop over the tasks. */
  method PlaceAll(tasks: seq<Task>, cfg: Config, c: Context) returns (groups: Groups)
    requires forall t | t in tasks :: IsEligible(t, c)
    ensures forall g: GroupKey :: g in groups
    ensures forall g: GroupKey :: groups[g] == Expected(g, tasks, cfg, c)
  {
    groups := EmptyGroups();
    forall g: GroupKey ensures g in groups && groups[g] == [] {
      EmptyGroupsAreEmpty(g);
    }
    for i := 0 to |tasks|
      invariant forall g: GroupKey :: g in groups
      invariant forall g: GroupKey :: groups[g] == Expected(g, tasks[..i], cfg, c)
    {
      ghost var was := groups;
      groups := Place(groups, tasks[i], cfg, c);
      forall g: GroupKey ensures groups[g] == Expected(g, tasks[..i + 1], cfg, c) {
        RoundKeepsExpected(was, groups, g, tasks, i, cfg, c);
      }
    }
    assert tasks[..|tasks|] == tasks;
  }

  lemma NoTaskIsConfirmation(tasks: seq<Task>, cfg: Config, c: Context)
    ensures Expected(PendingConfirmations, tasks, cfg, c) == []
  {
    if Members(PendingConfirmations, tasks, cfg, c) != [] {
      var k := FilterFrom(tasks, Rule(PendingConfirmations, cfg, c), 0);
    }
  }

  /** The loop over the pending confirmations. */
  method AddConfirmations(groups: Groups, pending: seq<Confirmation>) returns (r: Groups)
    requires PendingConfirmations in groups && groups[PendingConfirmations] == []
    ensures r == groups[PendingConfirmations := ConfirmationItems(pending)]
  {
    r := groups;
    for k := 0 to |pending|
      invariant r == groups[PendingConfirmations := ConfirmationItems(pending[..k])]
    {
      r := r[PendingConfirmations := r[PendingConfirmations] + [ConfirmationItem(pending[k])]];
      assert ConfirmationItems(pending[..k + 1]) == ConfirmationItems(pending[..k]) + [ConfirmationItem(pending[k])];
    }
    assert pending[..|pending|] == pending;
  }

  lemma OnlyEligibleMatter(g: GroupKey, tasks: seq<Task>, cfg: Config, c: Context)
    ensures Expected(g, Filter(tasks, EligibleRule(c)), cfg, c) == Expected(g, tasks, cfg, c)
  {
    FilterTwice(tasks, EligibleRule(c), Rule(g, cfg, c));
  }

  /** `generate_payload` up to the text: fills the groups in place, and meets the specification of every one. */
  method Group(candidates: seq<Task>, pending: seq<Confirmation>, cfg: Config, c: Context) returns (groups: Groups)
    ensures IsGrouping(groups, candidates, pending, cfg, c)
  {
    hide Expected, Filter, IsEligible;
    var tasks := EligibleTasks(candidates, c);
    groups := PlaceAll(tasks, cfg, c);
    forall g: GroupKey ensures groups[g] == Expected(g, candidates, cfg, c) {
      OnlyEligibleMatter(g, candidates, cfg, c);
    }
    NoTaskIsConfirmation(candidates, cfg, c);
    if cfg.includeConfirmations {
      groups := AddConfirmations(groups, pending);
    }
  }

  // ---------- What the specification means ----------

  lemma BelongsToOne(g: GroupKey, h: GroupKey, t: Task, cfg: Config, c: Context)
    requires Belongs(g, t, cfg, c) && Belongs(h, t, cfg, c)
    ensures g == h
  {
  }

  ghost predicate DistinctIds(tasks: seq<Task>) {
    forall i, j | 0 <= i < j < |tasks| :: tasks[i].id != tasks[j].id
  }

  /** Every item of a group shows a task that belongs there, with fewer than the limit before it. */
  lemma ExpectedFrom(g: GroupKey, tasks: seq<Task>, m: nat, cfg: Config, c: Context) returns (k: nat)
    requires m < |Expected(g, tasks, cfg, c)|
    ensures k < |tasks| && Expected(g, tasks, cfg, c)[m] == Shown(g, tasks[k], c)
    ensures Belongs(g, tasks[k], cfg, c) && |Members(g, tasks[..k], cfg, c)| == m < Limit(g, cfg, c)
  {
    k := FilterFrom(tasks, Rule(g, cfg, c), m);
  }

  predicate Shows(items: seq<Item>, id: string) {
    exists k | 0 <= k < |items| :: items[k].id == id
  }

  lemma ShownKeepsId(g: GroupKey, t: Task, c: Context)
    ensures Shown(g, t, c).id == t.id && Shown(g, t, c).title == t.title && Shown(g, t, c).trelloState == t.trelloState
  {
  }

  /** A task is in a group if and only if it belongs there and the limit was not reached by the tasks before it. */
  lemma ShownIff(g: GroupKey, tasks: seq<Task>, k: nat, cfg: Config, c: Context)
    requires DistinctIds(tasks) && k < |tasks|
    ensures Shows(Expected(g, tasks, cfg, c), tasks[k].id) <==>
      Belongs(g, tasks[k], cfg, c) && |Members(g, tasks[..k], cfg, c)| < Limit(g, cfg, c)
  {
    var items := Expected(g, tasks, cfg, c);
    if Belongs(g, tasks[k], cfg, c) && |Members(g, tasks[..k], cfg, c)| < Limit(g, cfg, c) {
      FilterAt(tasks, Rule(g, cfg, c), k);
      assert items[|Members(g, tasks[..k], cfg, c)|].id == tasks[k].id;
    }
    if Shows(items, tasks[k].id) {
      var m :| 0 <= m < |items| && items[m].id == tasks[k].id;
      var j := ExpectedFrom(g, tasks, m, cfg, c);
      ShownKeepsId(g, tasks[j], c);
      assert j == k;
    }
  }

  /** No task is in two groups, nor twice in one. */
  lemma NoTaskInTwoGroups(g: GroupKey, h: GroupKey, tasks: seq<Task>, i: nat, j: nat, cfg: Config, c: Context)
    requires DistinctIds(tasks)
    requires i < |Expected(g, tasks, cfg, c)| && j < |Expected(h, tasks, cfg, c)|
    requires Expected(g, tasks, cfg, c)[i].id == Expected(h, tasks, cfg, c)[j].id
    ensures g == h && i == j
  {
    var k := ExpectedFrom(g, tasks, i, cfg, c);
    var l := ExpectedFrom(h, tasks, j, cfg, c);
    ShownKeepsId(g, tasks[k], c);
    ShownKeepsId(h, tasks[l], c);
    assert k == l;
    BelongsToOne(g, h, tasks[k], cfg, c);
  }

  /** Tasks in progress are only shown as mentions, as unclassified, or as stale. */
  lemma InProgressOnlyWhenStale(g: GroupKey, tasks: seq<Task>, m: nat, cfg: Config, c: Context)
    requires m < |Expected(g, tasks, cfg, c)|
    requires Expected(g, tasks, cfg, c)[m].trelloState.InProgress?
    ensures g in {RequiresAttention, InboxClassification, StaleInProgress}
  {
    var k := ExpectedFrom(g, tasks, m, cfg, c);
    ShownKeepsId(g, tasks[k], c);
  }

  // ---------- What stale, due and the reasons mean ----------

  /** The first time that is known. */
  ghost predicate IsFirstKnown(times: seq<Option<int>>, time: int) {
    exists k | 0 <= k < |times| :: times[k] == Some(time) && forall j | 0 <= j < k :: times[j] == None
  }

  /** A whole number of days, rounded down, has passed. */
  predicate DaysPassed(since: int, now: int, days: int) {
    days * 86400000000 <= now - since < (days + 1) * 86400000000
  }

  /** In progress and without a sign of life for more than the number of days: exactly the tasks shown as stale. */
  lemma StaleIff(t: Task, cfg: Config, c: Context)
    ensures Belongs(StaleInProgress, t, cfg, c) <==>
      && IsEligible(t, c) && (c.applyWeekend ==> c.weekendScopeAllowed(t.scope) && c.weekendStaleAllowed)
      && c.checkinsEnabled && cfg.includeStale
      && !t.kind.Attention? && !t.scope.Inbox? && t.trelloState.InProgress?
      && exists time ::
           && IsFirstKnown([t.lastTrelloActivityAt, t.lastTouchedAt, t.updatedAt, t.firstSeenAt], time)
           && c.now - time > c.staleDays * 86400000000
  {
    var times := [t.lastTrelloActivityAt, t.lastTouchedAt, t.updatedAt, t.firstSeenAt];
    if ReferenceTime(t).Some? {
      ReferenceIsFirstKnown(t);
    }
    forall time | IsFirstKnown(times, time) ensures ReferenceTime(t) == Some(time) {
    }
  }

  lemma ReferenceIsFirstKnown(t: Task)
    requires ReferenceTime(t).Some?
    ensures IsFirstKnown([t.lastTrelloActivityAt, t.lastTouchedAt, t.updatedAt, t.firstSeenAt], ReferenceTime(t).value)
  {
    var times := [t.lastTrelloActivityAt, t.lastTouchedAt, t.updatedAt, t.firstSeenAt];
    var k := if times[0].Some? then 0 else if times[1].Some? then 1 else if times[2].Some? then 2 else 3;
    assert times[k] == ReferenceTime(t);
  }

  /** Perpetual tasks are shown when their next check-in has come. */
  lemma DueIff(t: Task, cfg: Config, c: Context)
    ensures Belongs(PerpetualDue, t, cfg, c) <==>
      && IsEligible(t, c) && (c.applyWeekend ==> c.weekendScopeAllowed(t.scope) && c.weekendCheckinsAllowed)
      && cfg.includePerpetuals && t.kind.Perpetual? && !t.scope.Inbox? && !t.trelloState.InProgress?
      && t.nextCheckinAt.Some? && t.nextCheckinAt.value <= c.now
  {
  }

  lemma DaysArePassed(since: int, now: int)
    ensures DaysPassed(since, now, (now - since) / DAY)
  {
  }

  /** Every stale item is in progress, and says for how many days it has been idle; no fewer than are allowed. */
  lemma StaleItemsAreIdle(groups: Groups, tasks: seq<Task>, pending: seq<Confirmation>, cfg: Config, c: Context, m: nat)
    returns (k: nat, time: int)
    requires IsGrouping(groups, tasks, pending, cfg, c) && m < |groups[StaleInProgress]|
    ensures var item := groups[StaleInProgress][m];
      && k < |tasks| && item.id == tasks[k].id && item.trelloState.InProgress?
      && IsFirstKnown([tasks[k].lastTrelloActivityAt, tasks[k].lastTouchedAt, tasks[k].updatedAt,
                       tasks[k].firstSeenAt], time)
      && item.reason.IdleDays? && DaysPassed(time, c.now, item.reason.days) && item.reason.days >= c.staleDays
  {
    k := ExpectedFrom(StaleInProgress, tasks, m, cfg, c);
    time := ReferenceTime(tasks[k]).value;
    ReferenceIsFirstKnown(tasks[k]);
    DaysArePassed(time, c.now);
  }

  /** Every perpetual item is due, and says how long ago it was last asked about, if it ever was. */
  lemma PerpetualItemsAreDue(groups: Groups, tasks: seq<Task>, pending: seq<Confirmation>, cfg: Config, c: Context,
                             m: nat)
    returns (k: nat)
    requires IsGrouping(groups, tasks, pending, cfg, c) && m < |groups[PerpetualDue]|
    ensures var reason := groups[PerpetualDue][m].reason;
      && k < |tasks| && groups[PerpetualDue][m].id == tasks[k].id
      && tasks[k].kind.Perpetual? && tasks[k].nextCheckinAt.Some? && tasks[k].nextCheckinAt.value <= c.now
      && match tasks[k].lastCheckinAt
         case None => reason == FirstCheckin
         case Some(last) => reason.LastUpdateDays? && DaysPassed(last, c.now, reason.days)
  {
    k := ExpectedFrom(PerpetualDue, tasks, m, cfg, c);
    if tasks[k].lastCheckinAt.Some? {
      DaysArePassed(tasks[k].lastCheckinAt.value, c.now);
    }
  }

  /** Every other item says what the task says, and why it is shown: a deadline first, then what it is. */
  lemma ItemsTellTheirTask(groups: Groups, tasks: seq<Task>, pending: seq<Confirmation>, cfg: Config, c: Context,
                           g: GroupKey, m: nat)
    returns (k: nat)
    requires IsGrouping(groups, tasks, pending, cfg, c) && g != PendingConfirmations && m < |groups[g]|
    ensures k < |tasks| && Belongs(g, tasks[k], cfg, c)
    ensures var item, t := groups[g][m], tasks[k];
      && (item.id, item.title, item.scope, item.trelloState) == (t.id, t.title, t.scope, t.trelloState)
      && item.priority == t.priority && item.dueAt == t.dueAt && item.expiresAt == None
      && (g == InboxClassification ==>
            && item.suggestedScope == c.suggest(t.title).scope && item.reason.Classified?
            && (c.suggest(t.title).reason != "" ==> item.reason.text == c.suggest(t.title).reason))
      && (g !in {InboxClassification, StaleInProgress, PerpetualDue} ==>
            && (item.reason == VisibleDeadline <==> t.dueAt.Some?)
            && (item.reason == Mentioned <==> t.dueAt.None? && g == RequiresAttention)
            && (item.reason == RequiresFocus <==> t.dueAt.None? && g != RequiresAttention && t.effortBucket.DeepEffort?)
            && (item.reason == LooksShort <==> t.dueAt.None? && g != RequiresAttention && t.effortBucket.QuickEffort?))
  {
    k := ExpectedFrom(g, tasks, m, cfg, c);
  }

  /** Confirmations are all shown, in their order, with what they are about and until when they can be given. */
  lemma ConfirmationsAreShown(groups: Groups, tasks: seq<Task>, pending: seq<Confirmation>, cfg: Config, c: Context,
                              m: nat)
    requires IsGrouping(groups, tasks, pending, cfg, c) && cfg.includeConfirmations
    ensures |groups[PendingConfirmations]| == |pending|
    ensures m < |pending| ==>
      var item := groups[PendingConfirmations][m];
      && item.id == pending[m].id && item.expiresAt == Some(pending[m].expiresAt)
      && item.title == if pending[m].summary == "" then pending[m].actionType else pending[m].summary
  {
  }

  /** A task that is eligible and allowed today is in no group, whatever the limits, in exactly these cases. */
  lemma RoutedNowhereIff(t: Task, cfg: Config, c: Context)
    requires IsEligible(t, c) && AllowedToday(t, c)
    ensures (forall g: GroupKey :: !Belongs(g, t, cfg, c)) <==>
      if t.kind.Attention? then !cfg.includeAttention
      else if t.scope.Inbox? then !cfg.includeInbox
      else if t.trelloState.InProgress? then
        !IsStale(t, c) || !cfg.includeStale || (c.applyWeekend && !c.weekendStaleAllowed)
      else
        t.kind.Perpetual? &&
        (!IsPerpetualDue(t, c) || !cfg.includePerpetuals || (c.applyWeekend && !c.weekendCheckinsAllowed))
  {
    if IsPlain(t) {
      assert Belongs(DeepWork, t, cfg, c) || Belongs(CallsContact, t, cfg, c) || Belongs(ReviewFollowup, t, cfg, c)
        || Belongs(ErrandsPersonal, t, cfg, c) || Belongs(QuickTask, t, cfg, c);
    } else {
      assert Belongs(RequiresAttention, t, cfg, c) || Belongs(InboxClassification, t, cfg, c)
        || Belongs(StaleInProgress, t, cfg, c)
        || Belongs(PerpetualDue, t, cfg, c)
        || (forall g: GroupKey :: !Belongs(g, t, cfg, c));
    }
  }
}
