/**
 The catalogue of OpenAI models: a cache with a time to live, a debounce and a stale fallback
 (backend/app/services/openai_models.py).
 */
module ModelCatalog {
  import opened Wrappers
  import opened Text
  import Order

  /** Times are in microseconds. */
  const SECOND := 1000000
  const MODEL_CATALOG_TTL := 30 * 60 * SECOND
  const MODEL_REFRESH_DEBOUNCE := 5 * SECOND

  const RECOMMENDATION_ORDER: seq<string> :=
    ["gpt-5.6-luna", "gpt-5.4-mini", "gpt-5-mini", "gpt-5.6-terra", "gpt-5.6-sol"]

  // ---------- The order of models ----------

  function IndexIn(order: seq<string>, id: string): (i: nat)
    ensures i <= |order| && (i < |order| ==> order[i] == id)
    ensures forall k | 0 <= k < i :: order[k] != id
  {
    if order == [] || order[0] == id then 0 else 1 + IndexIn(order[1..], id)
  }

  /** `_model_sort_key`: the place in the recommendation order, or after all of them, then the id. */
  function Rank(id: string): nat {
    IndexIn(RECOMMENDATION_ORDER, id)
  }

  predicate ModelLe(a: string, b: string) {
    Rank(a) < Rank(b) || (Rank(a) == Rank(b) && Order.StringLe(a, b))
  }

  predicate IsSorted(ids: seq<string>) {
    forall i, j | 0 <= i < j < |ids| :: ModelLe(ids[i], ids[j])
  }

  lemma ModelLeTransitive(a: string, b: string, c: string)
    requires ModelLe(a, b) && ModelLe(b, c)
    ensures ModelLe(a, c)
  {
    if Rank(a) == Rank(b) == Rank(c) {
      Order.StringLeTransitive(a, b, c);
    }
  }

  function Insert(id: string, ids: seq<string>): (r: seq<string>)
    ensures multiset(r) == multiset(ids) + multiset{id}
  {
    if ids == [] || ModelLe(id, ids[0]) then [id] + ids
    else
      assert ids == [ids[0]] + ids[1..];
      [ids[0]] + Insert(id, ids[1..])
  }

  lemma ModelLeTotal(a: string, b: string)
    ensures ModelLe(a, b) || ModelLe(b, a)
  {
    Order.StringLeTotal(a, b);
  }

  lemma PrependSorted(id: string, ids: seq<string>)
    requires IsSorted(ids) && forall j | 0 <= j < |ids| :: ModelLe(id, ids[j])
    ensures IsSorted([id] + ids)
  {
    hide ModelLe;
  }

  lemma {:induction false} InsertSorted(id: string, ids: seq<string>)
    requires IsSorted(ids)
    ensures IsSorted(Insert(id, ids))
  {
    hide ModelLe;
    if ids != [] {
      if ModelLe(id, ids[0]) {
        forall j | 0 <= j < |ids| ensures ModelLe(id, ids[j]) {
          if j > 0 {
            ModelLeTransitive(id, ids[0], ids[j]);
          }
        }
        PrependSorted(id, ids);
      } else {
        ModelLeTotal(id, ids[0]);
        InsertSorted(id, ids[1..]);
        var rest := Insert(id, ids[1..]);
        forall j | 0 <= j < |rest| ensures ModelLe(ids[0], rest[j]) {
          assert rest[j] in multiset(rest);
          assert rest[j] == id || rest[j] in multiset(ids[1..]);
        }
        PrependSorted(ids[0], rest);
      }
    }
  }

  /** `sorted(..., key=_model_sort_key)` */
  function Sorted(ids: seq<string>): (r: seq<string>)
    ensures multiset(r) == multiset(ids)
  {
    if ids == [] then []
    else
      assert ids == [ids[0]] + ids[1..];
      Insert(ids[0], Sorted(ids[1..]))
  }

  lemma {:induction false} SortedIsSorted(ids: seq<string>)
    ensures IsSorted(Sorted(ids))
  {
    if ids != [] {
      SortedIsSorted(ids[1..]);
      InsertSorted(ids[0], Sorted(ids[1..]));
    }
  }

  // ---------- What is shown ----------

  datatype Compatibility = Supported | RequiresValidation | Unavailable
  datatype Choice = Choice(id: string, isCurrent: bool, isValidated: bool, compatibility: Compatibility)

  datatype Status = RequiresEncryptionKey | RequiresApiKey | CatalogReady | FetchError

  datatype View = View(
    choices: seq<Choice>,
    recommended: Option<string>,
    fetchedAt: Option<int>,
    cached: bool,
    stale: bool,
    status: Status)

  /** What the caller knows of the configuration. */
  datatype Selection = Selection(current: string, validated: Option<string>, validationReady: bool)

  datatype Entry = Entry(models: seq<string>, fetchedAt: int)

  /** `_option` */
  function ChoiceOf(id: string, sel: Selection): Choice {
    var validated := sel.validationReady && sel.validated == Some(id);
    Choice(id, id == sel.current, validated, if validated then Supported else RequiresValidation)
  }

  function Choices(models: seq<string>, sel: Selection): (r: seq<Choice>)
    ensures |r| == |models| && forall k | 0 <= k < |r| :: r[k] == ChoiceOf(models[k], sel)
  {
    seq(|models|, k requires 0 <= k < |models| => ChoiceOf(models[k], sel))
  }

  function Listed(models: seq<string>, sel: Selection): seq<Choice> {
    if sel.current != "" && sel.current !in models
    then [Choice(sel.current, true, false, Unavailable)] + Choices(models, sel)
    else Choices(models, sel)
  }

  function FirstOf(order: seq<string>, models: seq<string>): Option<string> {
    if order == [] then None else if order[0] in models then Some(order[0]) else FirstOf(order[1..], models)
  }

  function FirstAvailable(choices: seq<Choice>): Option<string> {
    if choices == [] then None
    else if choices[0].compatibility != Unavailable then Some(choices[0].id)
    else FirstAvailable(choices[1..])
  }

  function Recommended(models: seq<string>, sel: Selection): Option<string> {
    var first := FirstOf(RECOMMENDATION_ORDER, models);
    if first.Some? then first else FirstAvailable(Listed(models, sel))
  }

  /** `_catalog_from_entry` */
  function FromEntry(entry: Entry, sel: Selection, cached: bool, stale: bool): View {
    View(Listed(entry.models, sel), Recommended(entry.models, sel), Some(entry.fetchedAt), cached, stale, CatalogReady)
  }

  /** `_catalog_without_fetch` */
  function WithoutFetch(sel: Selection, status: Status): View {
    var choices := if sel.current != "" then [Choice(sel.current, true, false, Unavailable)] else [];
    View(choices, None, None, false, false, status)
  }

  lemma {:induction false} FirstOfRank(order: seq<string>, models: seq<string>)
    ensures match FirstOf(order, models)
      case None => forall m | m in models :: m !in order
      case Some(id) => id in models && id in order && forall m | m in models :: IndexIn(order, id) <= IndexIn(order, m)
  {
    if order != [] && order[0] !in models {
      FirstOfRank(order[1..], models);
    }
  }

  /** The recommended model is the head of the sorted models, for any selection; none if there are none. */
  lemma RecommendedIsHead(models: seq<string>, sel: Selection)
    requires IsSorted(models)
    ensures Recommended(models, sel) == if models == [] then None else Some(models[0])
  {
    FirstOfRank(RECOMMENDATION_ORDER, models);
    var choices := Listed(models, sel);
    if models == [] {
      assert Choices(models, sel) == [];
      assert FirstOf(RECOMMENDATION_ORDER, models) == None;
      if choices != [] {
        assert choices[0].compatibility == Unavailable && choices[1..] == [];
      }
      assert FirstAvailable(choices) == None;
    } else {
      var first := FirstOf(RECOMMENDATION_ORDER, models);
      if first.Some? {
        var k :| 0 <= k < |models| && models[k] == first.value;
        assert k > 0 ==> ModelLe(models[0], models[k]);
        assert Rank(models[0]) == Rank(first.value) < |RECOMMENDATION_ORDER|;
      } else {
        assert Choices(models, sel)[0] == ChoiceOf(models[0], sel);
        assert FirstAvailable(Choices(models, sel)) == Some(models[0]);
        assert choices[0].compatibility == Unavailable ==> choices[1..] == Choices(models, sel);
      }
    }
  }

  function Count(choices: seq<Choice>, id: string): nat {
    if choices == [] then 0 else (if choices[0].id == id then 1 else 0) + Count(choices[1..], id)
  }

  lemma {:induction false} CountChoices(models: seq<string>, sel: Selection, id: string)
    ensures Count(Choices(models, sel), id) == multiset(models)[id]
  {
    if models != [] {
      assert models == [models[0]] + models[1..];
      assert Choices(models, sel)[1..] == Choices(models[1..], sel);
      CountChoices(models[1..], sel, id);
    }
  }

  /** The current model is listed exactly once, unless OpenAI itself lists it more than once. */
  lemma CurrentIsListedOnce(models: seq<string>, sel: Selection)
    requires sel.current != ""
    ensures Count(Listed(models, sel), sel.current) == 1 <==> multiset(models)[sel.current] <= 1
    ensures forall c | c in Listed(models, sel) :: c.isCurrent <==> c.id == sel.current
  {
    CountChoices(models, sel, sel.current);
    var choices := Listed(models, sel);
    if sel.current !in models {
      assert choices[1..] == Choices(models, sel);
      assert sel.current !in multiset(models);
    } else {
      assert sel.current in multiset(models);
    }
  }

  /** What is said of each choice: whether it is the one in use, was validated, and can be had. */
  lemma ChoicesTell(models: seq<string>, sel: Selection, k: nat)
    requires k < |Listed(models, sel)|
    ensures var choice := Listed(models, sel)[k];
      && (choice.isCurrent <==> choice.id == sel.current)
      && (choice.isValidated <==> choice.id in models && sel.validationReady && sel.validated == Some(choice.id))
      && (choice.compatibility == Supported <==> choice.isValidated)
      && (choice.compatibility == Unavailable <==> choice.id !in models)
      && (choice.id !in models ==> choice.id == sel.current)
  {
  }

  // ---------- The cache ----------

  /** What happens when the models are asked for: no key, an exception, or the raw list. */
  datatype Response = NoKey | Failed | Models(ids: seq<string>)

  datatype Request = Request(now: int, force: bool, storeAvailable: bool, hasSecret: bool, response: Response)

  function Filtered(supported: string -> bool, ids: seq<string>): seq<string> {
    if ids == [] then []
    else (if supported(ids[0]) then [Strip(ids[0])] else []) + Filtered(supported, ids[1..])
  }

  /** Filtering a list is filtering its parts: every model is kept as often as it is listed, in its place. */
  lemma {:induction false} FilteredParts(supported: string -> bool, a: seq<string>, b: seq<string>)
    ensures Filtered(supported, a + b) == Filtered(supported, a) + Filtered(supported, b)
  {
    hide Strip, Filtered;
    if a == [] {
      assert a + b == b;
      FilteredNone(supported);
    } else {
      var head := if supported(a[0]) then [Strip(a[0])] else [];
      assert (a + b)[1..] == a[1..] + b && (a + b)[0] == a[0];
      FilteredStep(supported, a);
      FilteredStep(supported, a + b);
      FilteredParts(supported, a[1..], b);
      var front, back := Filtered(supported, a[1..]), Filtered(supported, b);
      assert head + (front + back) == head + front + back;
    }
  }

  lemma FilteredNone(supported: string -> bool)
    ensures Filtered(supported, []) == []
  {
  }

  lemma FilteredStep(supported: string -> bool, ids: seq<string>)
    requires ids != []
    ensures Filtered(supported, ids) ==
      (if supported(ids[0]) then [Strip(ids[0])] else []) + Filtered(supported, ids[1..])
  {
  }

  lemma {:induction false} FilteredAre(supported: string -> bool, ids: seq<string>, m: string)
    ensures m in Filtered(supported, ids) <==> exists id :: id in ids && supported(id) && Strip(id) == m
  {
    if ids != [] {
      FilteredAre(supported, ids[1..], m);
      assert ids == [ids[0]] + ids[1..];
    }
  }

  /** The cached entry is served without asking. */
  predicate IsFresh(entry: Option<Entry>, r: Request) {
    entry.Some? && r.now - entry.value.fetchedAt < if r.force then MODEL_REFRESH_DEBOUNCE else MODEL_CATALOG_TTL
  }

  predicate Asks(entry: Option<Entry>, r: Request) {
    r.storeAvailable && r.hasSecret && !IsFresh(entry, r)
  }

  /** The request fetches the models anew. */
  predicate Fetches(entry: Option<Entry>, r: Request) {
    Asks(entry, r) && r.response.Models?
  }

  /** The cache after a request that has seen `seen` and ends when it is `entry`. */
  function Stored(supported: string -> bool, seen: Option<Entry>, entry: Option<Entry>, r: Request): Option<Entry> {
    if Fetches(seen, r) then Some(Entry(Sorted(Filtered(supported, r.response.ids)), r.now)) else entry
  }

  function EntryAfter(supported: string -> bool, entry: Option<Entry>, r: Request): Option<Entry> {
    Stored(supported, entry, entry, r)
  }

  function ViewAfter(supported: string -> bool, entry: Option<Entry>, r: Request, sel: Selection): View {
    if !r.storeAvailable then WithoutFetch(sel, RequiresEncryptionKey)
    else if !r.hasSecret then WithoutFetch(sel, RequiresApiKey)
    else if IsFresh(entry, r) then FromEntry(entry.value, sel, true, false)
    else match r.response
      case NoKey => WithoutFetch(sel, RequiresApiKey)
      case Models(_) => FromEntry(EntryAfter(supported, entry, r).value, sel, false, false)
      case Failed => if entry.Some? then FromEntry(entry.value, sel, true, true) else WithoutFetch(sel, FetchError)
  }

  /** What the answer to a request says of itself. */
  lemma ViewTells(supported: string -> bool, entry: Option<Entry>, r: Request, sel: Selection)
    ensures var view, asks := ViewAfter(supported, entry, r, sel), Asks(entry, r);
      && (view.status == RequiresEncryptionKey <==> !r.storeAvailable)
      && (view.status == RequiresApiKey <==> r.storeAvailable && (!r.hasSecret || (asks && r.response == NoKey)))
      && (view.status == FetchError <==> asks && r.response == Failed && entry == None)
      && (view.stale <==> asks && r.response == Failed && entry != None)
      && (view.cached <==> view.status == CatalogReady && !Fetches(entry, r))
      && view.fetchedAt == (if view.status != CatalogReady then None
                            else if Fetches(entry, r) then Some(r.now) else Some(entry.value.fetchedAt))
      && (view.status != CatalogReady ==>
           && view.recommended == None && |view.choices| == (if sel.current == "" then 0 else 1)
           && forall c | c in view.choices ::
                c.id == sel.current && c.isCurrent && !c.isValidated && c.compatibility == Unavailable)
  {
  }

  class ModelCache {
    var entries: map<string, Entry>

    function EntryOf(user: string): Option<Entry>
      reads this
    {
      if user in entries then Some(entries[user]) else None
    }

    method Invalidate(user: string)
      modifies this
      ensures entries == old(entries) - {user}
    {
      entries := entries - {user};
    }

    /** `list_available_openai_models` */
    method ListModels(supported: string -> bool, user: string, r: Request, sel: Selection) returns (view: View)
      modifies this
      ensures view == ViewAfter(supported, old(EntryOf(user)), r, sel)
      ensures EntryOf(user) == EntryAfter(supported, old(EntryOf(user)), r)
      ensures entries - {user} == old(entries) - {user}
    {
      hide Sorted, Filtered, Listed, Recommended;
      var cached := EntryOf(user);
      if !r.storeAvailable {
        return WithoutFetch(sel, RequiresEncryptionKey);
      }
      if !r.hasSecret {
        return WithoutFetch(sel, RequiresApiKey);
      }
      if cached.Some? && !r.force && r.now - cached.value.fetchedAt < MODEL_CATALOG_TTL {
        return FromEntry(cached.value, sel, true, false);
      }
      if cached.Some? && r.force && r.now - cached.value.fetchedAt < MODEL_REFRESH_DEBOUNCE {
        return FromEntry(cached.value, sel, true, false);
      }
      match r.response
      case NoKey =>
        view := WithoutFetch(sel, RequiresApiKey);
      case Models(ids) =>
        var entry := Entry(Sorted(Filtered(supported, ids)), r.now);
        entries := entries[user := entry];
        view := FromEntry(entry, sel, false, false);
      case Failed =>
        view := if cached.Some? then FromEntry(cached.value, sel, true, true) else WithoutFetch(sel, FetchError);
    }
  }

  // ---------- Requests of one user that overlap, between invalidations ----------

  /**
   A request looks at the clock and the cache, asks OpenAI, and stores. Requests are listed in the order in which they
   end; `lookAt` is how many had ended when this one looked.
   */
  datatype Flight = Flight(request: Request, lookAt: nat)

  predicate Ordered(flights: seq<Flight>) {
    forall k | 0 <= k < |flights| :: flights[k].lookAt <= k
  }

  /** The entry when `n` requests have ended. */
  function EntryAt(supported: string -> bool, entry: Option<Entry>, flights: seq<Flight>, n: nat): Option<Entry>
    requires Ordered(flights) && n <= |flights|
    decreases n
  {
    if n == 0 then entry
    else
      var f := flights[n - 1];
      Stored(supported, EntryAt(supported, entry, flights, f.lookAt), EntryAt(supported, entry, flights, n - 1),
             f.request)
  }

  /** The `k`-th request fetches the models. */
  predicate FetchesAt(supported: string -> bool, entry: Option<Entry>, flights: seq<Flight>, k: nat)
    requires Ordered(flights) && k < |flights|
  {
    Fetches(EntryAt(supported, entry, flights, flights[k].lookAt), flights[k].request)
  }

  /** Fetches end in the order of their times. */
  predicate NoneOvertakes(supported: string -> bool, entry: Option<Entry>, flights: seq<Flight>)
    requires Ordered(flights)
  {
    forall i, j | 0 <= i < j < |flights| && FetchesAt(supported, entry, flights, i)
                  && FetchesAt(supported, entry, flights, j) ::
      flights[i].request.now <= flights[j].request.now
  }

  predicate NoOlder(a: Option<Entry>, b: Option<Entry>) {
    a.Some? ==> b.Some? && a.value.fetchedAt <= b.value.fetchedAt
  }

  /** No request replaces the entry by an older one. */
  predicate OnlyGetsYounger(supported: string -> bool, entry: Option<Entry>, flights: seq<Flight>)
    requires Ordered(flights)
  {
    forall n | 0 < n <= |flights| ::
      NoOlder(EntryAt(supported, entry, flights, n - 1), EntryAt(supported, entry, flights, n))
  }

  /** The entry has the time of the `i`-th request, which fetched it. */
  predicate IsOfFetch(supported: string -> bool, entry: Option<Entry>, flights: seq<Flight>, now: Option<Entry>, i: nat)
    requires Ordered(flights)
  {
    && i < |flights| && FetchesAt(supported, entry, flights, i)
    && now.Some? && now.value.fetchedAt == flights[i].request.now
  }

  lemma EntryAfterFlight(supported: string -> bool, entry: Option<Entry>, flights: seq<Flight>, k: nat)
    requires Ordered(flights) && k < |flights|
    ensures var now := EntryAt(supported, entry, flights, k + 1);
      if FetchesAt(supported, entry, flights, k) then IsOfFetch(supported, entry, flights, now, k)
      else now == EntryAt(supported, entry, flights, k)
  {
  }

  /** The entry is the one at first, if nothing was fetched, or that of the last fetch. */
  lemma {:induction false} EntryIsOfLastFetch(supported: string -> bool, entry: Option<Entry>, flights: seq<Flight>,
                                              n: nat)
    requires Ordered(flights) && n <= |flights|
    ensures var now := EntryAt(supported, entry, flights, n);
      || (now == entry && forall i | 0 <= i < n :: !FetchesAt(supported, entry, flights, i))
      || exists i | 0 <= i < n :: IsOfFetch(supported, entry, flights, now, i)
  {
    if n > 0 {
      EntryIsOfLastFetch(supported, entry, flights, n - 1);
      EntryAfterFlight(supported, entry, flights, n - 1);
      hide EntryAt, FetchesAt;
    }
  }

  lemma {:induction false} YoungerFrom(supported: string -> bool, entry: Option<Entry>, flights: seq<Flight>, m: nat,
                                       n: nat)
    requires Ordered(flights) && OnlyGetsYounger(supported, entry, flights) && m <= n <= |flights|
    ensures NoOlder(EntryAt(supported, entry, flights, m), EntryAt(supported, entry, flights, n))
    decreases n
  {
    if m < n {
      YoungerFrom(supported, entry, flights, m, n - 1);
    }
  }

  /**
   The entry is never replaced by an older one if and only if no fetch overtakes a later one, whatever the clock does
   and however the requests overlap.
   */
  lemma EntryOnlyGetsYoungerIff(supported: string -> bool, entry: Option<Entry>, flights: seq<Flight>)
    requires Ordered(flights)
    ensures OnlyGetsYounger(supported, entry, flights) <==> NoneOvertakes(supported, entry, flights)
  {
    hide EntryAt, FetchesAt;
    if OnlyGetsYounger(supported, entry, flights) {
      forall i, j | 0 <= i < j < |flights| && FetchesAt(supported, entry, flights, i)
                    && FetchesAt(supported, entry, flights, j)
        ensures flights[i].request.now <= flights[j].request.now
      {
        EntryAfterFlight(supported, entry, flights, i);
        EntryAfterFlight(supported, entry, flights, j);
        YoungerFrom(supported, entry, flights, i + 1, j + 1);
      }
    }
    if NoneOvertakes(supported, entry, flights) {
      forall n | 0 < n <= |flights|
        ensures NoOlder(EntryAt(supported, entry, flights, n - 1), EntryAt(supported, entry, flights, n))
      {
        FetchIsNoOlder(supported, entry, flights, n - 1);
      }
    }
  }

  lemma FetchIsNoOlder(supported: string -> bool, entry: Option<Entry>, flights: seq<Flight>, k: nat)
    requires Ordered(flights) && NoneOvertakes(supported, entry, flights) && k < |flights|
    ensures NoOlder(EntryAt(supported, entry, flights, k), EntryAt(supported, entry, flights, k + 1))
  {
    if FetchesAt(supported, entry, flights, k) {
      EntryIsOfLastFetch(supported, entry, flights, k);
      EntryIsOfLastFetch(supported, entry, flights, flights[k].lookAt);
    }
  }

  /** Requests that do not overlap never overtake each other. */
  lemma SeparateNeverOvertake(supported: string -> bool, entry: Option<Entry>, flights: seq<Flight>)
    requires forall k | 0 <= k < |flights| :: flights[k].lookAt == k
    ensures NoneOvertakes(supported, entry, flights)
  {
    forall n | 0 < n <= |flights|
      ensures NoOlder(EntryAt(supported, entry, flights, n - 1), EntryAt(supported, entry, flights, n))
    {
    }
    EntryOnlyGetsYoungerIff(supported, entry, flights);
  }

  lemma {:induction false} EntryStays(supported: string -> bool, entry: Option<Entry>, flights: seq<Flight>, m: nat,
                                      n: nat)
    requires Ordered(flights) && m <= n <= |flights| && EntryAt(supported, entry, flights, m).Some?
    ensures EntryAt(supported, entry, flights, n).Some?
    decreases n
  {
    if m < n {
      EntryStays(supported, entry, flights, m, n - 1);
    }
  }

  /** After a fetch there is an entry, and if none overtakes, it is no older than that fetch. */
  lemma FetchLeavesEntry(supported: string -> bool, entry: Option<Entry>, flights: seq<Flight>, i: nat, n: nat)
    requires Ordered(flights) && i < n <= |flights| && FetchesAt(supported, entry, flights, i)
    ensures var now := EntryAt(supported, entry, flights, n);
      now.Some? && (NoneOvertakes(supported, entry, flights) ==> now.value.fetchedAt >= flights[i].request.now)
  {
    hide EntryAt, FetchesAt, NoneOvertakes, OnlyGetsYounger;
    EntryAfterFlight(supported, entry, flights, i);
    EntryStays(supported, entry, flights, i + 1, n);
    if NoneOvertakes(supported, entry, flights) {
      EntryOnlyGetsYoungerIff(supported, entry, flights);
      YoungerFrom(supported, entry, flights, i + 1, n);
    }
  }

  /**
   If none overtakes, a fetch that began after another one had ended is at least the debounce later, and the time to
   live if it was not forced.
   */
  lemma FetchesAreSpaced(supported: string -> bool, entry: Option<Entry>, flights: seq<Flight>, i: nat, j: nat)
    requires Ordered(flights) && NoneOvertakes(supported, entry, flights) && j < |flights| && i < flights[j].lookAt
    requires FetchesAt(supported, entry, flights, i) && FetchesAt(supported, entry, flights, j)
    ensures flights[j].request.now - flights[i].request.now >=
      if flights[j].request.force then MODEL_REFRESH_DEBOUNCE else MODEL_CATALOG_TTL
  {
    FetchLeavesEntry(supported, entry, flights, i, flights[j].lookAt);
  }

  /**
   Of two requests that overlap, the one that looked first and ends last leaves its older models; a third one fetches
   again right after the second.
   */
  lemma OverlapsCanOvertake(supported: string -> bool, ids: seq<string>)
    ensures var early := Request(0, true, true, true, Models(ids));
      var late, third := early.(now := 4 * SECOND), early.(now := 5 * SECOND);
      var flights := [Flight(late, 0), Flight(early, 0), Flight(third, 2)];
      && Ordered(flights) && !NoneOvertakes(supported, None, flights)
      && (forall k | 0 <= k < 3 :: FetchesAt(supported, None, flights, k))
      && third.now - late.now < MODEL_REFRESH_DEBOUNCE
  {
    var early := Request(0, true, true, true, Models(ids));
    var late, third := early.(now := 4 * SECOND), early.(now := 5 * SECOND);
    var flights := [Flight(late, 0), Flight(early, 0), Flight(third, 2)];
    assert EntryAt(supported, None, flights, 0) == None;
    assert FetchesAt(supported, None, flights, 0) && FetchesAt(supported, None, flights, 1);
    assert EntryAt(supported, None, flights, 2).value.fetchedAt == 0;
  }

  /** What a fetch puts into the cache: exactly the supported models, in the order of recommendation, at its time. */
  lemma FetchedAreSupported(supported: string -> bool, entry: Option<Entry>, r: Request)
    requires Fetches(entry, r)
    ensures var fetched := EntryAfter(supported, entry, r);
      && fetched.Some? && fetched.value.fetchedAt == r.now && IsSorted(fetched.value.models)
      && forall m :: m in fetched.value.models <==> exists id :: id in r.response.ids && supported(id) && Strip(id) == m
  {
    var kept := Filtered(supported, r.response.ids);
    SortedIsSorted(kept);
    forall m ensures m in Sorted(kept) <==> exists id :: id in r.response.ids && supported(id) && Strip(id) == m {
      FilteredAre(supported, r.response.ids, m);
      assert m in Sorted(kept) <==> m in multiset(Sorted(kept));
    }
    hide IsSorted;
  }

  /** A failed fetch changes nothing and serves what there was as stale, with the head of it recommended. */
  lemma FailedFetchServesStale(supported: string -> bool, entry: Entry, r: Request, sel: Selection)
    requires Asks(Some(entry), r) && r.response == Failed && IsSorted(entry.models)
    ensures EntryAfter(supported, Some(entry), r) == Some(entry)
    ensures var view := ViewAfter(supported, Some(entry), r, sel);
      && view.stale && view.cached && view.fetchedAt == Some(entry.fetchedAt)
        && view.choices == Listed(entry.models, sel)
      && view.recommended == if entry.models == [] then None else Some(entry.models[0])
  {
    RecommendedIsHead(entry.models, sel);
  }

  /** Every entry that a run leaves is sorted. */
  lemma {:induction false} EntriesAreSorted(supported: string -> bool, entry: Option<Entry>, flights: seq<Flight>,
                                            n: nat)
    requires (entry.Some? ==> IsSorted(entry.value.models)) && Ordered(flights) && n <= |flights|
    ensures var last := EntryAt(supported, entry, flights, n); last.Some? ==> IsSorted(last.value.models)
  {
    hide Sorted, Filtered, IsSorted, IsFresh;
    if n > 0 {
      EntriesAreSorted(supported, entry, flights, n - 1);
      if FetchesAt(supported, entry, flights, n - 1) {
        SortedIsSorted(Filtered(supported, flights[n - 1].request.response.ids));
      }
    }
  }
}
