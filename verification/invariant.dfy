/** What every reachable state of the packing list satisfies, and runs of
    user events: the invariant is kept by every handler, and as long as no
    item is deleted the baseline records the insertion order of the items. */
module TripInvariant {
  import opened JsText
  import opened Seqs
  import opened Items
  import opened TripList

  /** An item as adding creates it: a quantity the dropdown offers and a
      title that is not blank and not longer than the limit. */
  predicate ValidItem(x: Item)
  {
    ValidCount(x.count) && !AllWhiteSpace(x.title) && |x.title| <= MaxTitle
  }

  /** The adding check accepts the draft title. */
  predicate Accepts(s: State)
  {
    !AllWhiteSpace(s.input) && |s.input| <= MaxTitle
  }

  /** The invariant of reachable states. Ids are unique in each list; every
      shown item is, field for field, an item of the baseline; every cached
      item is a shown, packed item; every item was valid when added. */
  predicate Wf(s: State)
  {
    && Unique(s.working) && Unique(s.baseline) && Unique(s.cache)
    && (forall x :: x in s.working ==> x in s.baseline)
    && (forall x :: x in s.cache ==> x in s.working && x.packed)
    && ValidCount(s.selected)
    && (forall x :: x in s.baseline ==> ValidItem(x))
  }

  /** The page on mount is well formed, shows "No items..." and reports
      nothing on the list and nothing packed. */
  lemma InitWf()
    ensures Wf(Init)
    ensures NoticeText(Init.notice) == "No items..."
    ensures Summary(Init) == Counts(0, 0)
  {
  }

  /** Without repeated ids, a list has as many ids as items. */
  lemma {:induction false} IdsSize(xs: seq<Item>)
    ensures |Ids(xs)| <= |xs|
    ensures Unique(xs) ==> |Ids(xs)| == |xs|
  {
    if |xs| > 0 {
      var rest := xs[1..];
      IdsSize(rest);
      IdsCons(xs);
      if Unique(xs) {
        HeadIdNotInTail(xs);
      }
    }
  }

  /** The ids of a non-empty list: its head's id and the ids of its tail. */
  lemma IdsCons(xs: seq<Item>)
    requires |xs| > 0
    ensures Ids(xs) == {xs[0].id} + Ids(xs[1..])
  {
    forall x | x in xs[1..]
      ensures x in xs
    {
    }
    forall x | x in xs && x != xs[0]
      ensures x in xs[1..]
    {
    }
  }

  /** Without repeated ids, the head's id is not among the tail's, and the
      tail has no repeated ids either. */
  lemma HeadIdNotInTail(xs: seq<Item>)
    requires |xs| > 0 && Unique(xs)
    ensures Unique(xs[1..]) && xs[0].id !in Ids(xs[1..])
  {
    var rest := xs[1..];
    forall i, j | 0 <= i < |rest| && 0 <= j < |rest| && rest[i].id == rest[j].id
      ensures i == j
    {
      assert xs[i + 1].id == xs[j + 1].id;
    }
    forall y | y in rest
      ensures y.id != xs[0].id
    {
      var j :| 0 <= j < |rest| && rest[j] == y;
      assert xs[j + 1] == y;
    }
  }

  /** In a well-formed state the summary never over-reports: its packed
      figure is at most the number of packed items on the list, which is at
      most its total. (It can under-report: see the scenario of a cleared
      list brought back by "default".) */
  lemma SummaryBounded(s: State)
    requires Wf(s)
    ensures Summary(s).packed <= Count(s.working, IsPacked) <= Summary(s).total
  {
    var packed := Packed(s.working);
    IdsSize(s.cache);
    IdsSize(packed);
    SubsetSize(Ids(s.cache), Ids(packed));
    FilterCount(s.working, IsPacked);
    assert |packed| <= |s.working|;
  }

  /** A subset is no larger than its superset. */
  lemma SubsetSize(a: set<Id>, b: set<Id>)
    requires a <= b
    ensures |a| <= |b|
  {
    assert b == a + (b - a);
    assert a * (b - a) == {};
  }

  lemma AddWf(s: State, id: Id)
    requires Wf(s) && Fresh(s, id)
    ensures Wf(Add(s, id))
  {
    if Accepts(s) {
      AddAcceptedWf(s, id);
    }
  }

  /** An accepted ADD click appends a valid item with a fresh id. */
  lemma AddAcceptedWf(s: State, id: Id)
    requires Wf(s) && Fresh(s, id) && Accepts(s)
    ensures Wf(Add(s, id))
  {
    var item := Item(id, s.input, s.selected, false);
    assert !IsBlank(s.input);
    var r := Add(s, id);
    assert r.working == s.working + [item];
    assert r.baseline == s.baseline + [item];
    AppendUnique(s.working, item);
    AppendUnique(s.baseline, item);
    assert ValidItem(item);
  }

  /** Appending an item whose id a list lacks keeps its ids unique. */
  lemma AppendUnique(xs: seq<Item>, x: Item)
    requires Unique(xs) && x.id !in Ids(xs)
    ensures Unique(xs + [x])
  {
    forall y | y in xs
      ensures y.id != x.id
    {
      assert y.id in Ids(xs);
    }
    UniqueConcat(xs, [x]);
  }

  lemma DeleteWf(s: State, id: Id)
    requires Wf(s)
    ensures Wf(Delete(s, id))
  {
    UniqueFilter(s.working, OtherThan(id));
    UniqueFilter(s.cache, OtherThan(id));
  }

  lemma ClearWf(s: State)
    requires Wf(s)
    ensures Wf(Clear(s))
  {
  }

  lemma SortWf(s: State, option: SortOption)
    requires Wf(s)
    ensures Wf(Sort(s, option))
  {
    if option != Default {
      UniqueArrange(s.working, option == Checked);
      var r := Sort(s, option);
      forall x | x in r.working
        ensures x in s.working
      {
        assert x in multiset(r.working);
      }
      forall x | x in s.working
        ensures x in r.working
      {
        assert x in multiset(s.working);
      }
    }
  }

  lemma ToggleWf(s: State, id: Id)
    requires Wf(s) && id in Ids(s.working)
    ensures Wf(Toggle(s, id))
  {
    var r := Toggle(s, id);
    forall i, j | 0 <= i < |r.working| && 0 <= j < |r.working| && r.working[i].id == r.working[j].id
      ensures i == j
    {
      assert s.working[i].id == s.working[j].id;
    }
    forall i, j | 0 <= i < |r.baseline| && 0 <= j < |r.baseline| && r.baseline[i].id == r.baseline[j].id
      ensures i == j
    {
      assert s.baseline[i].id == s.baseline[j].id;
    }
    UniqueFilter(r.working, IsPacked);
    forall x | x in r.working
      ensures x in r.baseline
    {
      var i :| 0 <= i < |r.working| && r.working[i] == x;
      assert s.working[i] in s.baseline;
      var j :| 0 <= j < |s.baseline| && s.baseline[j] == s.working[i];
      SameFields(r.baseline[j], x);
    }
    forall x | x in r.baseline
      ensures ValidItem(x)
    {
      var j :| 0 <= j < |r.baseline| && r.baseline[j] == x;
      assert ValidItem(s.baseline[j]);
    }
  }

  /** One user action on the component. */
  datatype Event =
    | TypeText(text: JsString)
    | PickQuantity(n: int)
    | AddClicked(id: Id)
    | DeleteClicked(id: Id)
    | ClearClicked
    | SortChosen(option: SortOption)
    | CheckboxClicked(id: Id)

  /** What the page guarantees of an action: the quantity dropdown offers 1
      to 25, uuids are fresh, only shown rows have a checkbox, and the sort
      dropdown, whose shown value is the sort in force, reports a change only
      when another option is picked. */
  predicate Allowed(s: State, e: Event)
  {
    match e
    case PickQuantity(n) => ValidCount(n)
    case AddClicked(id) => Fresh(s, id)
    case CheckboxClicked(id) => id in Ids(s.working)
    case SortChosen(option) => option != s.sortValue
    case _ => true
  }

  /** The handler an action runs. */
  function Step(s: State, e: Event): State
    requires Allowed(s, e)
  {
    match e
    case TypeText(text) => TypeTitle(s, text)
    case PickQuantity(n) => PickCount(s, n)
    case AddClicked(id) => Add(s, id)
    case DeleteClicked(id) => Delete(s, id)
    case ClearClicked => Clear(s)
    case SortChosen(option) => Sort(s, option)
    case CheckboxClicked(id) => Toggle(s, id)
  }

  /** Every action of the run is allowed in the state it meets. */
  predicate Admissible(s: State, events: seq<Event>)
    decreases |events|
  {
    |events| == 0 || (Allowed(s, events[0]) && Admissible(Step(s, events[0]), events[1..]))
  }

  /** The state after a run of actions. */
  function Run(s: State, events: seq<Event>): State
    requires Admissible(s, events)
    decreases |events|
  {
    if |events| == 0 then s else Run(Step(s, events[0]), events[1..])
  }

  /** The ids a run appends, in order: those of the ADD clicks the check
      accepts. */
  function Inserted(s: State, events: seq<Event>): seq<Id>
    requires Admissible(s, events)
    decreases |events|
  {
    if |events| == 0 then []
    else
      var here := if events[0].AddClicked? && Accepts(s) then [events[0].id] else [];
      here + Inserted(Step(s, events[0]), events[1..])
  }

  lemma StepWf(s: State, e: Event)
    requires Wf(s) && Allowed(s, e)
    ensures Wf(Step(s, e))
  {
    match e
    case TypeText(text) =>
    case PickQuantity(n) =>
    case AddClicked(id) => AddWf(s, id);
    case DeleteClicked(id) => DeleteWf(s, id);
    case ClearClicked => ClearWf(s);
    case SortChosen(option) => SortWf(s, option);
    case CheckboxClicked(id) => ToggleWf(s, id);
  }

  /** Every state reachable by allowed actions keeps the invariant. */
  lemma {:induction false} RunWf(s: State, events: seq<Event>)
    requires Wf(s) && Admissible(s, events)
    ensures Wf(Run(s, events))
    decreases |events|
  {
    if |events| > 0 {
      StepWf(s, events[0]);
      RunWf(Step(s, events[0]), events[1..]);
    }
  }

  /** Outside of delete, an action only ever appends the id of an accepted
      ADD click to the baseline's ids. */
  lemma StepBaselineIds(s: State, e: Event)
    requires Allowed(s, e) && !e.DeleteClicked?
    ensures IdSeq(Step(s, e).baseline)
      == IdSeq(s.baseline) + (if e.AddClicked? && Accepts(s) then [e.id] else [])
  {
    var r := Step(s, e);
    match e
    case AddClicked(id) =>
      if Accepts(s) {
        assert r.baseline == s.baseline + [r.baseline[|s.baseline|]];
      }
    case CheckboxClicked(id) =>
      assert IdSeq(r.baseline) == IdSeq(s.baseline) by {
        forall i | 0 <= i < |s.baseline|
          ensures IdSeq(r.baseline)[i] == IdSeq(s.baseline)[i]
        {
          assert Toggled(s.baseline[i], r.baseline[i], s.baseline[i].id == id);
        }
      }
    case _ =>
  }

  /** As long as nothing is deleted, the baseline's ids are its ids before
      the run followed by the ids of the accepted ADD clicks, in click order:
      neither sorting, clearing nor toggling reorders or drops them. */
  lemma {:induction false} BaselineIsInsertionOrder(s: State, events: seq<Event>)
    requires Admissible(s, events)
    requires forall i :: 0 <= i < |events| ==> !events[i].DeleteClicked?
    ensures IdSeq(Run(s, events).baseline) == IdSeq(s.baseline) + Inserted(s, events)
    decreases |events|
  {
    if |events| > 0 {
      var e, rest := events[0], events[1..];
      var t := Step(s, e);
      forall i | 0 <= i < |rest|
        ensures !rest[i].DeleteClicked?
      {
        assert rest[i] == events[i + 1];
      }
      StepBaselineIds(s, e);
      BaselineIsInsertionOrder(t, rest);
      var here := if e.AddClicked? && Accepts(s) then [e.id] else [];
      assert Run(s, events) == Run(t, rest);
      assert Inserted(s, events) == here + Inserted(t, rest);
      var a, b, c := IdSeq(s.baseline), here, Inserted(t, rest);
      assert IdSeq(Run(s, events).baseline) == IdSeq(t.baseline) + c;
      assert IdSeq(t.baseline) == a + b;
      ConcatAssoc(a, b, c);
    }
  }

  /** From a page with an empty baseline (the freshly mounted page, for one)
      and with no delete, choosing "default" shows the items in the order
      they were added, whatever sorting, clearing and toggling happened
      before. */
  lemma DefaultShowsInsertionOrder(s: State, events: seq<Event>)
    requires |s.baseline| == 0 && Admissible(s, events)
    requires forall i :: 0 <= i < |events| ==> !events[i].DeleteClicked?
    ensures IdSeq(Sort(Run(s, events), Default).working) == Inserted(s, events)
  {
    DefaultAfterRun(s, events);
    assert IdSeq(s.baseline) == [];
  }

  /** With no delete in a run, "default" at its end shows the baseline's ids
      from before the run followed by the ids the run inserted. */
  lemma DefaultAfterRun(s: State, events: seq<Event>)
    requires Admissible(s, events)
    requires forall i :: 0 <= i < |events| ==> !events[i].DeleteClicked?
    ensures IdSeq(Sort(Run(s, events), Default).working) == IdSeq(s.baseline) + Inserted(s, events)
  {
    BaselineIsInsertionOrder(s, events);
  }
}
