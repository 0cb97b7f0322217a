/**
 The text of a briefing, the snapshots saved with it, and the replies that name a task by its number:
 backend/app/services/briefing.py and backend/app/services/telegram_processor.py. The text is kept as
 the list of its lines.
 */
module Numbering {
  import opened Wrappers
  import opened Grouping

  datatype Line =
    | Heading(time: string)
    | Blank
    | Section(group: GroupKey)
    | Numbered(number: int, title: string)
    | Bullet(title: string)
    | Proposal(scope: string)
    | Ask(number: int, scope: string)
    | Expires(at: Option<int>)
    | Details(item: Item)
    | Motive(reason: Reason)
    | NothingToShow

  // ---------- The lines, specified ----------

  predicate HasDetails(item: Item) {
    item.scope != OtherScope("") || item.trelloState != OtherState("") || item.dueAt.Some?
      || item.priority in {"high", "medium_high", "medium", "low"}
  }

  function ItemLines(g: GroupKey, item: Item, number: int): seq<Line> {
    if g.PendingConfirmations? then [Bullet(item.title), Expires(item.expiresAt)]
    else if g.InboxClassification? then
      [Numbered(number, item.title), Proposal(item.suggestedScope), Ask(number, item.suggestedScope)]
    else [Numbered(number, item.title)] + (if HasDetails(item) then [Details(item)] else []) + [Motive(item.reason)]
  }

  function LinesOf(g: GroupKey, items: seq<Item>, first: int): seq<Line> {
    if items == [] then []
    else
      var n := |items| - 1;
      LinesOf(g, items[..n], first) + ItemLines(g, items[n], first + n)
  }

  function SectionLines(g: GroupKey, items: seq<Item>, first: int): seq<Line> {
    if items == [] then [] else [Section(g)] + LinesOf(g, items, first) + [Blank]
  }

  /** The items that take a number: those of every group but the confirmations, in the order of the groups. */
  function Visible(order: seq<GroupKey>, groups: Groups): seq<Item>
    requires forall g: GroupKey :: g in groups
  {
    if order == [] then []
    else
      var n := |order| - 1;
      Visible(order[..n], groups) + if order[n].PendingConfirmations? then [] else groups[order[n]]
  }

  function Body(order: seq<GroupKey>, groups: Groups): seq<Line>
    requires forall g: GroupKey :: g in groups
  {
    if order == [] then []
    else
      var n := |order| - 1;
      Body(order[..n], groups) + SectionLines(order[n], groups[order[n]], |Visible(order[..n], groups)| + 1)
  }

  function Text(time: string, groups: Groups): seq<Line>
    requires forall g: GroupKey :: g in groups
  {
    [Heading(time), Blank] + Body(GROUP_ORDER, groups)
      + Closing(Visible(GROUP_ORDER, groups) == [] && groups[PendingConfirmations] == [])
  }

  function Closing(nothing: bool): seq<Line> {
    if nothing then [NothingToShow] else []
  }

  function Ids(items: seq<Item>): (r: seq<string>)
    ensures |r| == |items| && forall k | 0 <= k < |r| :: r[k] == items[k].id
  {
    seq(|items|, k requires 0 <= k < |items| => items[k].id)
  }

  // ---------- The loops that write the text ----------

  /** The lines of one item in `_format_payload`. */
  method FormatItem(g: GroupKey, item: Item, counter: int) returns (lines: seq<Line>)
    ensures lines == ItemLines(g, item, counter)
  {
    lines := [if !g.PendingConfirmations? then Numbered(counter, item.title) else Bullet(item.title)];
    if g.InboxClassification? {
      lines := lines + [Proposal(item.suggestedScope)];
      lines := lines + [Ask(counter, item.suggestedScope)];
    } else if g.PendingConfirmations? {
      lines := lines + [Expires(item.expiresAt)];
    } else {
      if HasDetails(item) {
        lines := lines + [Details(item)];
      }
      lines := lines + [Motive(item.reason)];
    }
  }

  /** The loop over the items of one group. */
  method FormatGroup(g: GroupKey, items: seq<Item>, first: int)
    returns (lines: seq<Line>, counter: int, visible: seq<string>)
    ensures lines == LinesOf(g, items, first)
    ensures counter == first + if g.PendingConfirmations? then 0 else |items|
    ensures visible == if g.PendingConfirmations? then [] else Ids(items)
  {
    lines, counter, visible := [], first, [];
    assert LinesOf(g, items[..0], first) == [];
    hide LinesOf, ItemLines;
    for i := 0 to |items|
      invariant lines == LinesOf(g, items[..i], first)
      invariant counter == first + if g.PendingConfirmations? then 0 else i
      invariant visible == if g.PendingConfirmations? then [] else Ids(items[..i])
    {
      LinesOneMore(g, items, i, first, counter);
      assert Ids(items[..i + 1]) == Ids(items[..i]) + [items[i].id];
      var more := FormatItem(g, items[i], counter);
      lines := lines + more;
      if !g.PendingConfirmations? {
        visible := visible + [items[i].id];
        counter := counter + 1;
      }
    }
    assert items[..|items|] == items;
  }

  lemma BulletsAreAlike(item: Item, m: int, n: int)
    ensures ItemLines(PendingConfirmations, item, m) == ItemLines(PendingConfirmations, item, n)
  {
  }

  lemma LinesOneMore(g: GroupKey, items: seq<Item>, i: nat, first: int, counter: int)
    requires i < |items| && (g.PendingConfirmations? || counter == first + i)
    ensures LinesOf(g, items[..i + 1], first) == LinesOf(g, items[..i], first) + ItemLines(g, items[i], counter)
  {
    hide ItemLines;
    assert items[..i + 1][..i] == items[..i];
    if g.PendingConfirmations? {
      BulletsAreAlike(items[i], first + i, counter);
    }
  }

  lemma VisibleOneMore(order: seq<GroupKey>, groups: Groups, i: nat)
    requires forall g: GroupKey :: g in groups
    requires i < |order|
    ensures Visible(order[..i + 1], groups) ==
      Visible(order[..i], groups) + if order[i].PendingConfirmations? then [] else groups[order[i]]
  {
    var prefix := order[..i + 1];
    assert prefix[..i] == order[..i];
  }

  lemma BodyOneMore(order: seq<GroupKey>, groups: Groups, i: nat)
    requires forall g: GroupKey :: g in groups
    requires i < |order|
    ensures Body(order[..i + 1], groups) ==
      Body(order[..i], groups) + SectionLines(order[i], groups[order[i]], |Visible(order[..i], groups)| + 1)
  {
    hide SectionLines, Visible;
    var prefix := order[..i + 1];
    assert prefix[..i] == order[..i];
  }

  lemma IdsConcat(a: seq<Item>, b: seq<Item>)
    ensures Ids(a + b) == Ids(a) + Ids(b)
  {
  }

  /** The loop over the groups. */
  method FormatGroups(order: seq<GroupKey>, groups: Groups)
    returns (lines: seq<Line>, counter: int, visible: seq<string>)
    requires forall g: GroupKey :: g in groups
    ensures lines == Body(order, groups)
    ensures counter == |Visible(order, groups)| + 1
    ensures visible == Ids(Visible(order, groups))
  {
    lines, counter, visible := [], 1, [];
    assert lines == Body(order[..0], groups) && Visible(order[..0], groups) == [];
    hide Body, Visible, LinesOf;
    for i := 0 to |order|
      invariant lines == Body(order[..i], groups)
      invariant counter == |Visible(order[..i], groups)| + 1
      invariant visible == Ids(Visible(order[..i], groups))
    {
      BodyOneMore(order, groups, i);
      VisibleOneMore(order, groups, i);
      var g := order[i];
      var items := groups[g];
      if items == [] {
        continue;
      }
      IdsConcat(Visible(order[..i], groups), items);
      var more, next, ids := FormatGroup(g, items, counter);
      lines := lines + ([Section(g)] + more + [Blank]);
      visible := visible + ids;
      counter := next;
    }
    assert order[..|order|] == order;
  }

  /** `_format_payload` */
  method FormatPayload(time: string, groups: Groups) returns (lines: seq<Line>, visible: seq<string>)
    requires forall g: GroupKey :: g in groups
    ensures lines == Text(time, groups)
    ensures visible == Ids(Visible(GROUP_ORDER, groups))
  {
    lines := [Heading(time), Blank];
    var body, counter, ids := FormatGroups(GROUP_ORDER, groups);
    lines := lines + body;
    visible := ids;
    if counter == 1 && groups[PendingConfirmations] == [] {
      lines := lines + [NothingToShow];
    }
  }

  // ---------- The snapshots ----------

  datatype Entry = Entry(group: GroupKey, items: seq<Item>)

  /** The groups of a payload: those that are not empty, in their order. */
  function PayloadGroups(order: seq<GroupKey>, groups: Groups): seq<Entry>
    requires forall g: GroupKey :: g in groups
  {
    if order == [] then []
    else
      var n := |order| - 1;
      PayloadGroups(order[..n], groups) + if groups[order[n]] == [] then [] else [Entry(order[n], groups[order[n]])]
  }

  function IsId(): string -> bool {
    (id: string) => id != ""
  }

  function NonBlank(ids: seq<string>): seq<string> {
    Filter(ids, IsId())
  }

  /** The ids that one of the snapshots takes from a payload. */
  function Taken(entries: seq<Entry>, takes: GroupKey -> bool): seq<string> {
    if entries == [] then []
    else
      var last := entries[|entries| - 1];
      Taken(entries[..|entries| - 1], takes) + if takes(last.group) then NonBlank(Ids(last.items)) else []
  }

  function TakesNumber(): GroupKey -> bool {
    (g: GroupKey) => !g.PendingConfirmations?
  }

  function TakesPerpetual(): GroupKey -> bool {
    (g: GroupKey) => g.PerpetualDue?
  }

  lemma NonBlankOneMore(items: seq<Item>, k: nat)
    requires k < |items|
    ensures NonBlank(Ids(items[..k + 1])) == NonBlank(Ids(items[..k])) + if items[k].id == "" then [] else [items[k].id]
  {
    assert Ids(items[..k + 1])[..k] == Ids(items[..k]);
  }

  /** The inner loop of `_save_snapshots`. */
  method CollectIds(entry: Entry, visible: seq<string>, perpetual: seq<string>) returns (v: seq<string>, p: seq<string>)
    ensures v == visible + if entry.group.PendingConfirmations? then [] else NonBlank(Ids(entry.items))
    ensures p == perpetual + if entry.group.PerpetualDue? then NonBlank(Ids(entry.items)) else []
  {
    hide NonBlank;
    v, p := visible, perpetual;
    NonBlankOfNonBlank(Ids(entry.items[..0]));
    for k := 0 to |entry.items|
      invariant v == visible + if entry.group.PendingConfirmations? then [] else NonBlank(Ids(entry.items[..k]))
      invariant p == perpetual + if entry.group.PerpetualDue? then NonBlank(Ids(entry.items[..k])) else []
    {
      NonBlankOneMore(entry.items, k);
      var id := entry.items[k].id;
      if id != "" && !entry.group.PendingConfirmations? {
        v := v + [id];
      }
      if id != "" && entry.group.PerpetualDue? {
        p := p + [id];
      }
    }
    assert entry.items[..|entry.items|] == entry.items;
  }

  /** `_save_snapshots`: the contents of the two snapshots. */
  method SaveSnapshots(payload: seq<Entry>) returns (tasks: seq<string>, perpetuals: seq<string>)
    ensures tasks == Taken(payload, TakesNumber())
    ensures perpetuals == Taken(payload, TakesPerpetual())
  {
    tasks, perpetuals := [], [];
    for i := 0 to |payload|
      invariant tasks == Taken(payload[..i], TakesNumber())
      invariant perpetuals == Taken(payload[..i], TakesPerpetual())
    {
      assert payload[..i + 1][..i] == payload[..i];
      tasks, perpetuals := CollectIds(payload[i], tasks, perpetuals);
    }
    assert payload[..|payload|] == payload;
  }

  lemma NonBlankConcat(a: seq<string>, b: seq<string>)
    ensures NonBlank(a + b) == NonBlank(a) + NonBlank(b)
  {
    FilterConcat(a, b, IsId());
  }

  lemma TakenOneMore(entries: seq<Entry>, entry: Entry, takes: GroupKey -> bool)
    ensures Taken(entries + [entry], takes) ==
      Taken(entries, takes) + if takes(entry.group) then NonBlank(Ids(entry.items)) else []
  {
  }

  lemma PayloadOneMore(order: seq<GroupKey>, groups: Groups, takes: GroupKey -> bool)
    requires forall g: GroupKey :: g in groups
    requires order != []
    ensures var n := |order| - 1;
      Taken(PayloadGroups(order, groups), takes) ==
      Taken(PayloadGroups(order[..n], groups), takes) + if takes(order[n]) then NonBlank(Ids(groups[order[n]])) else []
  {
    var n := |order| - 1;
    var front, items := PayloadGroups(order[..n], groups), groups[order[n]];
    if items == [] {
      assert PayloadGroups(order, groups) == front;
    } else {
      assert PayloadGroups(order, groups) == front + [Entry(order[n], items)];
      TakenOneMore(front, Entry(order[n], items), takes);
    }
  }

  lemma TaskSnapshotStep(order: seq<GroupKey>, groups: Groups)
    requires forall g: GroupKey :: g in groups
    requires order != []
    requires var front := order[..|order| - 1];
      Taken(PayloadGroups(front, groups), TakesNumber()) == NonBlank(Ids(Visible(front, groups)))
    ensures Taken(PayloadGroups(order, groups), TakesNumber()) == NonBlank(Ids(Visible(order, groups)))
  {
    hide Visible, Taken, PayloadGroups, NonBlank;
    var n := |order| - 1;
    VisibleOneMore(order, groups, n);
    assert order[..n + 1] == order;
    PayloadOneMore(order, groups, TakesNumber());
    assert Visible(order[..n], groups) + [] == Visible(order[..n], groups);
    IdsConcat(Visible(order[..n], groups), groups[order[n]]);
    NonBlankConcat(Ids(Visible(order[..n], groups)), Ids(groups[order[n]]));
  }

  /** The "tasks" snapshot has the ids of the numbered items, in their order, without the blank ones. */
  lemma {:induction false} TaskSnapshot(order: seq<GroupKey>, groups: Groups)
    requires forall g: GroupKey :: g in groups
    ensures Taken(PayloadGroups(order, groups), TakesNumber()) == NonBlank(Ids(Visible(order, groups)))
  {
    if order != [] {
      TaskSnapshot(order[..|order| - 1], groups);
      TaskSnapshotStep(order, groups);
    }
  }

  ghost predicate HasPerpetuals(order: seq<GroupKey>, groups: Groups)
    requires forall g: GroupKey :: g in groups
  {
    Taken(PayloadGroups(order, groups), TakesPerpetual()) ==
      if PerpetualDue in order then NonBlank(Ids(groups[PerpetualDue])) else []
  }

  lemma PerpetualSnapshotStep(order: seq<GroupKey>, groups: Groups)
    requires forall g: GroupKey :: g in groups
    requires forall i, j | 0 <= i < j < |order| :: order[i] != order[j]
    requires order != [] && HasPerpetuals(order[..|order| - 1], groups)
    ensures HasPerpetuals(order, groups)
  {
    hide Taken, PayloadGroups, NonBlank;
    PayloadOneMore(order, groups, TakesPerpetual());
    assert order == order[..|order| - 1] + [order[|order| - 1]];
  }

  /** The "perpetuals" snapshot has the ids of the perpetual group. */
  lemma {:induction false} PerpetualSnapshot(order: seq<GroupKey>, groups: Groups)
    requires forall g: GroupKey :: g in groups
    requires forall i, j | 0 <= i < j < |order| :: order[i] != order[j]
    ensures HasPerpetuals(order, groups)
  {
    if order != [] {
      PerpetualSnapshot(order[..|order| - 1], groups);
      PerpetualSnapshotStep(order, groups);
    }
  }

  // ---------- Numbers ----------

  function IsNumbered(): Line -> bool {
    (line: Line) => line.Numbered?
  }

  /** The lines that have a number. */
  function Numbers(lines: seq<Line>): seq<Line> {
    Filter(lines, IsNumbered())
  }

  lemma NumbersConcat(a: seq<Line>, b: seq<Line>)
    ensures Numbers(a + b) == Numbers(a) + Numbers(b)
  {
    FilterConcat(a, b, IsNumbered());
  }

  lemma {:induction false} NumberedIsAmong(lines: seq<Line>, line: Line)
    requires line in lines && line.Numbered?
    ensures line in Numbers(lines)
  {
    var n := |lines| - 1;
    if line != lines[n] {
      assert lines == lines[..n] + [lines[n]];
      NumberedIsAmong(lines[..n], line);
    }
  }

  lemma NumbersOfNone(lines: seq<Line>)
    requires forall line | line in lines :: !line.Numbered?
    ensures Numbers(lines) == []
  {
    FilterNone(lines, IsNumbered());
  }

  /** The numbered lines of items numbered from `first` on. */
  function Labels(items: seq<Item>, first: int): (r: seq<Line>)
    ensures |r| == |items| && forall k | 0 <= k < |r| :: r[k] == Numbered(first + k, items[k].title)
  {
    seq(|items|, k requires 0 <= k < |items| => Numbered(first + k, items[k].title))
  }

  lemma NumbersOfOne(line: Line)
    requires line.Numbered?
    ensures Numbers([line]) == [line]
  {
    assert [line][..0] == [];
  }

  lemma NumbersOfItem(g: GroupKey, item: Item, number: int)
    ensures Numbers(ItemLines(g, item, number)) ==
      if g.PendingConfirmations? then [] else [Numbered(number, item.title)]
  {
    hide Numbers;
    var lines := ItemLines(g, item, number);
    if g.PendingConfirmations? {
      NumbersOfNone(lines);
    } else {
      NumbersOfOne(lines[0]);
      NumbersOfNone(lines[1..]);
      NumbersConcat([lines[0]], lines[1..]);
      assert lines == [lines[0]] + lines[1..];
    }
  }

  function LabelsIn(g: GroupKey, items: seq<Item>, first: int): seq<Line> {
    if g.PendingConfirmations? then [] else Labels(items, first)
  }

  lemma LabelsOneMore(g: GroupKey, items: seq<Item>, item: Item, first: int)
    ensures LabelsIn(g, items + [item], first) ==
      LabelsIn(g, items, first) + if g.PendingConfirmations? then [] else [Numbered(first + |items|, item.title)]
  {
  }

  lemma LinesOfOneMore(g: GroupKey, front: seq<Item>, item: Item, first: int)
    ensures LinesOf(g, front + [item], first) == LinesOf(g, front, first) + ItemLines(g, item, first + |front|)
  {
    hide ItemLines;
    assert (front + [item])[..|front|] == front;
  }

  lemma NumbersOneMore(g: GroupKey, front: seq<Item>, item: Item, first: int)
    requires Numbers(LinesOf(g, front, first)) == LabelsIn(g, front, first)
    ensures Numbers(LinesOf(g, front + [item], first)) == LabelsIn(g, front + [item], first)
  {
    hide Numbers, LinesOf, ItemLines, LabelsIn;
    LinesOfOneMore(g, front, item, first);
    NumbersConcat(LinesOf(g, front, first), ItemLines(g, item, first + |front|));
    NumbersOfItem(g, item, first + |front|);
    LabelsOneMore(g, front, item, first);
  }

  lemma NumbersOfNoItem(g: GroupKey, first: int)
    ensures Numbers(LinesOf(g, [], first)) == LabelsIn(g, [], first)
  {
  }

  lemma NumbersOfGroup(g: GroupKey, items: seq<Item>, first: int)
    ensures Numbers(LinesOf(g, items, first)) == LabelsIn(g, items, first)
  {
    hide Numbers, LinesOf, LabelsIn;
    var front: seq<Item> := [];
    NumbersOfNoItem(g, first);
    for i := 0 to |items|
      invariant front == items[..i]
      invariant Numbers(LinesOf(g, front, first)) == LabelsIn(g, front, first)
    {
      NumbersOneMore(g, front, items[i], first);
      front := front + [items[i]];
    }
    assert front == items;
  }

  lemma NumbersInside(head: seq<Line>, body: seq<Line>, tail: seq<Line>)
    requires Numbers(head) == [] && Numbers(tail) == []
    ensures Numbers(head + body + tail) == Numbers(body)
  {
    hide Numbers;
    NumbersConcat(head + body, tail);
    NumbersConcat(head, body);
  }

  lemma NumbersOfSection(g: GroupKey, items: seq<Item>, first: int)
    ensures Numbers(SectionLines(g, items, first)) == LabelsIn(g, items, first)
  {
    NumbersOfNone([]);
    NumbersOfNone([Section(g)]);
    NumbersOfNone([Blank]);
    hide Numbers, LinesOf, Labels;
    if items != [] {
      var lines := LinesOf(g, items, first);
      NumbersOfGroup(g, items, first);
      NumbersInside([Section(g)], lines, [Blank]);
    }
  }

  lemma LabelsConcat(a: seq<Item>, b: seq<Item>, first: int)
    ensures Labels(a + b, first) == Labels(a, first) + Labels(b, first + |a|)
  {
  }

  lemma NumbersOfPrefix(order: seq<GroupKey>, groups: Groups, i: nat)
    requires forall g: GroupKey :: g in groups
    requires i < |order| && Numbers(Body(order[..i], groups)) == Labels(Visible(order[..i], groups), 1)
    ensures Numbers(Body(order[..i + 1], groups)) == Labels(Visible(order[..i + 1], groups), 1)
  {
    hide Numbers, Body, Visible, SectionLines;
    var before, items := Visible(order[..i], groups), groups[order[i]];
    var lines, more := Body(order[..i], groups), SectionLines(order[i], items, |before| + 1);
    BodyOneMore(order, groups, i);
    VisibleOneMore(order, groups, i);
    NumbersOfSection(order[i], items, |before| + 1);
    NumbersConcat(lines, more);
    LabelsConcat(before, items, 1);
  }

  lemma NumbersOfBody(order: seq<GroupKey>, groups: Groups)
    requires forall g: GroupKey :: g in groups
    ensures Numbers(Body(order, groups)) == Labels(Visible(order, groups), 1)
  {
    NumbersOfNothing(groups);
    hide Numbers, Body, Visible, Labels;
    for i := 0 to |order|
      invariant Numbers(Body(order[..i], groups)) == Labels(Visible(order[..i], groups), 1)
    {
      NumbersOfPrefix(order, groups, i);
    }
    assert order[..|order|] == order;
  }

  lemma NumbersOfNothing(groups: Groups)
    requires forall g: GroupKey :: g in groups
    ensures Numbers(Body([], groups)) == Labels(Visible([], groups), 1)
  {
  }

  /**
   The numbered lines of a briefing run from 1 to the number of visible items without gaps, each with its title;
   confirmations take none.
   */
  lemma NumbersRunOn(time: string, groups: Groups)
    requires forall g: GroupKey :: g in groups
    ensures Numbers(Text(time, groups)) == Labels(Visible(GROUP_ORDER, groups), 1)
  {
    hide Numbers, Body, Visible;
    NumbersOfBody(GROUP_ORDER, groups);
    var head := [Heading(time), Blank];
    var tail := Closing(Visible(GROUP_ORDER, groups) == [] && groups[PendingConfirmations] == []);
    NumbersOfNone(head);
    NumbersOfNone(tail);
    NumbersInside(head, Body(GROUP_ORDER, groups), tail);
  }

  /** The question to confirm a classification names the number, and the proposal, of the item above it. */
  ghost predicate AsksRightly(line: Line, visible: seq<Item>) {
    line.Ask? ==> 1 <= line.number <= |visible| && visible[line.number - 1].suggestedScope == line.scope
  }

  lemma {:induction false} GroupAsksRightly(g: GroupKey, items: seq<Item>, first: int, visible: seq<Item>)
    requires 1 <= first && first - 1 + |items| <= |visible|
    requires !g.PendingConfirmations? ==> forall k | 0 <= k < |items| :: visible[first - 1 + k] == items[k]
    ensures forall line | line in LinesOf(g, items, first) :: AsksRightly(line, visible)
  {
    if items != [] {
      GroupAsksRightly(g, items[..|items| - 1], first, visible);
    }
  }

  lemma {:induction false} BodyAsksRightly(order: seq<GroupKey>, groups: Groups)
    requires forall g: GroupKey :: g in groups
    ensures forall line | line in Body(order, groups) :: AsksRightly(line, Visible(order, groups))
  {
    if order != [] {
      var n := |order| - 1;
      var g, before := order[n], Visible(order[..n], groups);
      BodyAsksRightly(order[..n], groups);
      if g.PendingConfirmations? {
        forall line | line in SectionLines(g, groups[g], |before| + 1) ensures !line.Ask? {
          NoAskInConfirmations(groups[g], |before| + 1);
        }
      } else {
        GroupAsksRightly(g, groups[g], |before| + 1, Visible(order, groups));
      }
    }
  }

  lemma {:induction false} NoAskInConfirmations(items: seq<Item>, first: int)
    ensures forall line | line in LinesOf(PendingConfirmations, items, first) :: !line.Ask?
  {
    if items != [] {
      NoAskInConfirmations(items[..|items| - 1], first);
    }
  }

  // ---------- Replies ----------

  datatype Reply = Chosen(id: string) | NeedsNumber | NoSuchNumber

  /** `_task_from_snapshot`: the task that a reply means, given the ids of the latest snapshot. */
  function Resolve(ids: seq<string>, index: Option<int>): Reply {
    if index.None? && |ids| != 1 then NeedsNumber
    else
      var n := if index.None? then 1 else index.value;
      if n < 1 || n > |ids| then NoSuchNumber else Chosen(ids[n - 1])
  }

  lemma {:induction false} NonBlankOfNonBlank(ids: seq<string>)
    requires "" !in ids
    ensures NonBlank(ids) == ids
  {
    if ids != [] {
      NonBlankOfNonBlank(ids[..|ids| - 1]);
    }
  }

  lemma {:induction false} NonBlankIsShorter(ids: seq<string>)
    requires "" in ids
    ensures |NonBlank(ids)| < |ids|
  {
    var n := |ids| - 1;
    if "" in ids[..n] {
      NonBlankIsShorter(ids[..n]);
    } else {
      assert ids == ids[..n] + [ids[n]];
    }
  }

  ghost predicate NumbersResolve(groups: Groups)
    requires forall g: GroupKey :: g in groups
  {
    var visible, ids := Visible(GROUP_ORDER, groups), Taken(PayloadGroups(GROUP_ORDER, groups), TakesNumber());
    forall k | 0 <= k < |visible| :: Resolve(ids, Some(k + 1)) == Chosen(visible[k].id)
  }

  lemma NumberResolves(groups: Groups, k: nat)
    requires forall g: GroupKey :: g in groups
    requires NumbersResolve(groups) && k < |Visible(GROUP_ORDER, groups)|
    ensures Resolve(Taken(PayloadGroups(GROUP_ORDER, groups), TakesNumber()), Some(k + 1)) ==
      Chosen(Visible(GROUP_ORDER, groups)[k].id)
  {
  }

  lemma BlankBreaksNumbers(groups: Groups)
    requires forall g: GroupKey :: g in groups
    requires "" in Ids(Visible(GROUP_ORDER, groups))
    ensures !NumbersResolve(groups)
  {
    TaskSnapshot(GROUP_ORDER, groups);
    hide Visible, Taken, PayloadGroups, NonBlank;
    var ids := Ids(Visible(GROUP_ORDER, groups));
    NonBlankIsShorter(ids);
    var last := |ids| - 1;
    assert Resolve(NonBlank(ids), Some(last + 1)) == NoSuchNumber;
  }

  lemma NumbersResolveWithoutBlank(groups: Groups)
    requires forall g: GroupKey :: g in groups
    requires "" !in Ids(Visible(GROUP_ORDER, groups))
    ensures NumbersResolve(groups)
  {
    hide Visible, Taken, PayloadGroups, NonBlank;
    var visible, ids := Visible(GROUP_ORDER, groups), Taken(PayloadGroups(GROUP_ORDER, groups), TakesNumber());
    assert ids == Ids(visible) by {
      TaskSnapshot(GROUP_ORDER, groups);
      NonBlankOfNonBlank(Ids(visible));
    }
    forall k | 0 <= k < |visible| ensures Resolve(ids, Some(k + 1)) == Chosen(visible[k].id) {
      assert ids[k + 1 - 1] == visible[k].id;
    }
  }

  /**
   Every number in a briefing resolves to the item it was printed with if and only if no visible item has a
   blank id.
   */
  lemma NumbersResolveIff(groups: Groups)
    requires forall g: GroupKey :: g in groups
    ensures NumbersResolve(groups) <==> forall item | item in Visible(GROUP_ORDER, groups) :: item.id != ""
  {
    hide Visible, NumbersResolve;
    var visible, ids := Visible(GROUP_ORDER, groups), Ids(Visible(GROUP_ORDER, groups));
    if "" in ids {
      BlankBreaksNumbers(groups);
      var k :| 0 <= k < |ids| && ids[k] == "";
      assert visible[k].id == "";
    } else {
      NumbersResolveWithoutBlank(groups);
      forall item | item in visible ensures item.id != "" {
        var k :| 0 <= k < |visible| && visible[k] == item;
        assert ids[k] == item.id;
      }
    }
  }

  lemma EmptyIsSkipped(order: seq<GroupKey>, groups: Groups, i: nat)
    requires forall g: GroupKey :: g in groups
    requires i < |order| && groups[order[i]] == []
    ensures Visible(order[..i + 1], groups) == Visible(order[..i], groups)
  {
    VisibleOneMore(order, groups, i);
    hide Visible;
  }

  lemma OnlyQuickTask(groups: Groups, item: Item)
    requires forall g: GroupKey :: g in groups && groups[g] == if g == QuickTask then [item] else []
    ensures Visible(GROUP_ORDER, groups) == [item]
  {
    hide Visible;
    NothingVisible(groups);
    EmptyIsSkipped(GROUP_ORDER, groups, 0);
    VisibleOneMore(GROUP_ORDER, groups, 1);
    assert GROUP_ORDER[..0] == [] && [] + [item] == [item];
    for i := 2 to |GROUP_ORDER|
      invariant Visible(GROUP_ORDER[..i], groups) == [item]
    {
      EmptyIsSkipped(GROUP_ORDER, groups, i);
    }
    assert GROUP_ORDER[..|GROUP_ORDER|] == GROUP_ORDER;
  }

  /** A briefing of one task with a blank id: its number means no task. */
  lemma BlankIdHasNoNumber(groups: Groups, item: Item)
    requires item.id == "" && forall g: GroupKey :: g in groups && groups[g] == if g == QuickTask then [item] else []
    ensures Visible(GROUP_ORDER, groups) == [item]
    ensures Resolve(Taken(PayloadGroups(GROUP_ORDER, groups), TakesNumber()), Some(1)) == NoSuchNumber
  {
    hide Visible, Taken, PayloadGroups, Filter;
    OnlyQuickTask(groups, item);
    TaskSnapshot(GROUP_ORDER, groups);
    FilterNone(Ids([item]), IsId());
  }

  lemma NothingVisible(groups: Groups)
    requires forall g: GroupKey :: g in groups
    ensures Visible([], groups) == []
  {
  }

  /** A visible item is one of a group, at the place that is left after the groups before it. */
  lemma {:induction false} VisibleFrom(order: seq<GroupKey>, groups: Groups, k: nat) returns (p: nat, m: nat)
    requires forall g: GroupKey :: g in groups
    requires k < |Visible(order, groups)|
    ensures p < |order| && order[p] != PendingConfirmations
    ensures m < |groups[order[p]]| && groups[order[p]][m] == Visible(order, groups)[k]
    ensures k == |Visible(order[..p], groups)| + m
  {
    var n := |order| - 1;
    if k < |Visible(order[..n], groups)| {
      p, m := VisibleFrom(order[..n], groups, k);
      assert order[..n][..p] == order[..p];
    } else {
      p, m := n, k - |Visible(order[..n], groups)|;
    }
  }

  /** A visible item shows a task. */
  lemma VisibleIsTask(tasks: seq<Task>, pending: seq<Confirmation>, cfg: Config, c: Context, groups: Groups, i: nat)
    returns (g: GroupKey, k: nat)
    requires IsGrouping(groups, tasks, pending, cfg, c)
    requires i < |Visible(GROUP_ORDER, groups)|
    ensures k < |tasks| && Belongs(g, tasks[k], cfg, c) && Visible(GROUP_ORDER, groups)[i] == Shown(g, tasks[k], c)
  {
    hide Visible;
    var p, m := VisibleFrom(GROUP_ORDER, groups, i);
    g := GROUP_ORDER[p];
    k := ExpectedFrom(g, tasks, m, cfg, c);
  }

  lemma OrderIsDistinct(p: nat, q: nat)
    requires p < |GROUP_ORDER| && q < |GROUP_ORDER| && GROUP_ORDER[p] == GROUP_ORDER[q]
    ensures p == q
  {
  }

  /** With distinct ids, no task has two numbers. */
  lemma NoTaskHasTwoNumbers(tasks: seq<Task>, pending: seq<Confirmation>, cfg: Config, c: Context, groups: Groups,
                            i: nat, j: nat)
    requires IsGrouping(groups, tasks, pending, cfg, c) && DistinctIds(tasks)
    requires i < |Visible(GROUP_ORDER, groups)| && j < |Visible(GROUP_ORDER, groups)|
    requires Visible(GROUP_ORDER, groups)[i].id == Visible(GROUP_ORDER, groups)[j].id
    ensures i == j
  {
    hide Visible, Expected, DistinctIds;
    var p, m := VisibleFrom(GROUP_ORDER, groups, i);
    var q, n := VisibleFrom(GROUP_ORDER, groups, j);
    NoTaskInTwoGroups(GROUP_ORDER[p], GROUP_ORDER[q], tasks, m, n, cfg, c);
    OrderIsDistinct(p, q);
  }

  /** A numbered line is that of the visible item at its number. */
  lemma NumberedLine(time: string, groups: Groups, line: Line)
    requires forall g: GroupKey :: g in groups
    requires line in Text(time, groups) && line.Numbered?
    ensures 1 <= line.number <= |Visible(GROUP_ORDER, groups)|
    ensures line.title == Visible(GROUP_ORDER, groups)[line.number - 1].title
  {
    NumbersRunOn(time, groups);
    NumberedIsAmong(Text(time, groups), line);
    hide Numbers, Text, Visible;
    var labels := Labels(Visible(GROUP_ORDER, groups), 1);
    var i :| 0 <= i < |labels| && line == labels[i];
  }

  lemma NoVisibleIsBlank(tasks: seq<Task>, pending: seq<Confirmation>, cfg: Config, c: Context, groups: Groups)
    requires IsGrouping(groups, tasks, pending, cfg, c)
    requires forall t | t in tasks :: t.id != ""
    ensures forall item | item in Visible(GROUP_ORDER, groups) :: item.id != ""
  {
    hide Visible, Belongs;
    var visible := Visible(GROUP_ORDER, groups);
    forall item | item in visible ensures item.id != "" {
      var j :| 0 <= j < |visible| && visible[j] == item;
      var h, l := VisibleIsTask(tasks, pending, cfg, c, groups, j);
      ShownKeepsId(h, tasks[l], c);
    }
  }

  /**
   From the tasks to a reply: a number that is printed with a title resolves to a task with this title,
   which belongs to a group of the briefing.
   */
  lemma ReplyMeansTask(tasks: seq<Task>, pending: seq<Confirmation>, cfg: Config, c: Context, groups: Groups,
                       time: string, line: Line)
      returns (g: GroupKey, k: nat)
    requires IsGrouping(groups, tasks, pending, cfg, c)
    requires forall t | t in tasks :: t.id != ""
    requires line in Text(time, groups) && line.Numbered?
    ensures k < |tasks| && Belongs(g, tasks[k], cfg, c)
    ensures line == Numbered(line.number, tasks[k].title)
    ensures Resolve(Taken(PayloadGroups(GROUP_ORDER, groups), TakesNumber()), Some(line.number)) == Chosen(tasks[k].id)
  {
    hide Text, Taken, PayloadGroups, Visible, Resolve, Belongs, Expected, Shown, NumbersResolve;
    NumberedLine(time, groups, line);
    NoVisibleIsBlank(tasks, pending, cfg, c, groups);
    NumbersResolveIff(groups);
    var i := line.number - 1;
    g, k := VisibleIsTask(tasks, pending, cfg, c, groups, i);
    ShownKeepsId(g, tasks[k], c);
    NumberResolves(groups, i);
  }

  /** A briefing from the tasks to the text that is sent and the snapshots that are saved with it. */
  method Brief(time: string, tasks: seq<Task>, pending: seq<Confirmation>, cfg: Config, c: Context)
      returns (groups: Groups, lines: seq<Line>, taskSnapshot: seq<string>, perpetualSnapshot: seq<string>)
    ensures IsGrouping(groups, tasks, pending, cfg, c)
    ensures lines == Text(time, groups)
    ensures taskSnapshot == NonBlank(Ids(Visible(GROUP_ORDER, groups)))
    ensures perpetualSnapshot == NonBlank(Ids(Expected(PerpetualDue, tasks, cfg, c)))
  {
    hide Taken, PayloadGroups, Visible, Text, NonBlank, Expected;
    groups := Group(tasks, pending, cfg, c);
    var visible;
    lines, visible := FormatPayload(time, groups);
    taskSnapshot, perpetualSnapshot := SaveSnapshots(PayloadGroups(GROUP_ORDER, groups));
    TaskSnapshot(GROUP_ORDER, groups);
    assert GROUP_ORDER[8] == PerpetualDue;
    PerpetualSnapshot(GROUP_ORDER, groups);
  }
}
