/** The packing-list component as a state machine: a working list (what is
    shown), a baseline list (insertion order, used to restore the "default"
    sort), a cache of the packed items (what the summary counts), the message
    slot, the draft title and the selected quantity. Every handler of the
    component is one total transition `State -> State`. */
module TripList {
  import opened JsText
  import opened Seqs
  import opened Items

  /** The message slot (`errorMessage`). */
  datatype Notice = NoItems | MustWrite | TooLong

  /** The exact text each notice displays. */
  function NoticeText(n: Notice): string
  {
    match n
    case NoItems => "No items..."
    case MustWrite => "You must write something to add"
    case TooLong => "Character count should not exceed 20!"
  }

  /** The three entries of the sort dropdown. */
  datatype SortOption = Default | Checked | Unchecked

  datatype State = State(
    working: seq<Item>,    // `data`
    baseline: seq<Item>,   // `defaultData`
    cache: seq<Item>,      // `checkedItems`
    notice: Notice,        // `errorMessage`
    input: JsString,       // `inputValue`
    selected: int,         // `selectValue`
    sortValue: SortOption  // `sortValue`
  )

  /** The state on mount. */
  const Init: State := State([], [], [], NoItems, [], 1, Default)

  /** An id the component has not handed out to any item it still holds. */
  predicate Fresh(s: State, id: Id)
  {
    id !in Ids(s.working) && id !in Ids(s.baseline) && id !in Ids(s.cache)
  }

  /** The three lists agree between two states. */
  predicate SameLists(a: State, b: State)
  {
    a.working == b.working && a.baseline == b.baseline && a.cache == b.cache
  }

  /** The title passes the blank check (its trimmed length is below one). */
  predicate IsBlank(title: JsString)
  {
    |Trim(title)| < 1
  }

  /** Typing in the text box. */
  function TypeTitle(s: State, text: JsString): State
  {
    s.(input := text)
  }

  /** Choosing a quantity in the dropdown. */
  function PickCount(s: State, n: int): State
  {
    s.(selected := n)
  }

  /** The ADD button. A title that is white space only is refused first, then
      one longer than the limit (measured before trimming); otherwise one
      unpacked item carrying the untrimmed title and the selected quantity is
      appended to both lists and the text box is emptied. The fresh id stands
      in for the uuid the component generates. */
  function Add(s: State, id: Id): (r: State)
    requires Fresh(s, id)
    ensures r.selected == s.selected && r.sortValue == s.sortValue
    ensures AllWhiteSpace(s.input) ==>
      SameLists(r, s) && r.notice == MustWrite && r.input == s.input
    ensures !AllWhiteSpace(s.input) && |s.input| > MaxTitle ==>
      SameLists(r, s) && r.notice == TooLong && r.input == s.input
    ensures !AllWhiteSpace(s.input) && |s.input| <= MaxTitle ==>
      && |r.working| == |s.working| + 1 && r.working[..|s.working|] == s.working
      && |r.baseline| == |s.baseline| + 1 && r.baseline[..|s.baseline|] == s.baseline
      && r.working[|s.working|] == r.baseline[|s.baseline|]
      && r.working[|s.working|].id == id
      && r.working[|s.working|].title == s.input
      && r.working[|s.working|].count == s.selected
      && !r.working[|s.working|].packed
      && r.cache == s.cache && r.input == [] && r.notice == s.notice
  {
    if IsBlank(s.input) then
      s.(notice := MustWrite)
    else if |s.input| > MaxTitle then
      s.(notice := TooLong)
    else
      var item := Item(id, s.input, s.selected, false);
      assert (s.working + [item])[..|s.working|] == s.working;
      assert (s.baseline + [item])[..|s.baseline|] == s.baseline;
      s.(working := s.working + [item], baseline := s.baseline + [item], input := [])
  }

  /** The delete button of one row. The working list and the packed cache
      lose the item with that id, and the baseline is overwritten with the
      new working list, in whatever order the working list was sorted. An
      absent id changes neither list but still overwrites the baseline. */
  function Delete(s: State, id: Id): (r: State)
    ensures forall x :: x in r.working <==> x in s.working && x.id != id
    ensures forall x :: x in r.cache <==> x in s.cache && x.id != id
    ensures id !in Ids(r.working) && id !in Ids(r.cache)
    ensures r.baseline == r.working
    ensures id !in Ids(s.working) ==> r.working == s.working
    ensures id !in Ids(s.cache) ==> r.cache == s.cache
    ensures r.notice == s.notice && r.input == s.input
    ensures r.selected == s.selected && r.sortValue == s.sortValue
  {
    var kept := WithoutId(s.working, id);
    s.(working := kept, baseline := kept, cache := WithoutId(s.cache, id))
  }

  /** The Clear button: the working list and the packed cache are emptied,
      the baseline is left as it was. */
  function Clear(s: State): (r: State)
    ensures |r.working| == 0 && |r.cache| == 0
    ensures r.baseline == s.baseline
    ensures r.notice == s.notice && r.input == s.input
    ensures r.selected == s.selected && r.sortValue == s.sortValue
  {
    s.(working := [], cache := [])
  }

  /** The sort dropdown. "checked" and "unchecked" replace the working list by
      its stable partition with packed (resp. unpacked) items ahead, a
      permutation of it; "default" replaces it by the baseline. The baseline
      and the packed cache are never touched. */
  function Sort(s: State, option: SortOption): (r: State)
    ensures r.sortValue == option
    ensures r.baseline == s.baseline && r.cache == s.cache
    ensures r.notice == s.notice && r.input == s.input && r.selected == s.selected
    ensures option == Default ==> r.working == s.baseline
    ensures option == Checked ==> StablePartition(r.working, s.working, true)
    ensures option == Unchecked ==> StablePartition(r.working, s.working, false)
    ensures option != Default ==> multiset(r.working) == multiset(s.working)
  {
    match option
    case Checked =>
      ArrangeIsStablePartition(s.working, true);
      s.(sortValue := option, working := Arrange(s.working, true))
    case Unchecked =>
      ArrangeIsStablePartition(s.working, false);
      s.(sortValue := option, working := Arrange(s.working, false))
    case Default =>
      s.(sortValue := option, working := s.baseline)
  }

  /** The checkbox of one row. The item object is shared by the working and
      the baseline lists, so its flag flips in both; the packed cache is then
      recomputed from the working list. Only rows that are shown have a
      checkbox, hence the id is in the working list. */
  function Toggle(s: State, id: Id): (r: State)
    requires id in Ids(s.working)
    ensures |r.working| == |s.working| && |r.baseline| == |s.baseline|
    ensures forall i :: 0 <= i < |s.working| ==>
      Toggled(s.working[i], r.working[i], s.working[i].id == id)
    ensures forall i :: 0 <= i < |s.baseline| ==>
      Toggled(s.baseline[i], r.baseline[i], s.baseline[i].id == id)
    ensures forall x :: x in r.cache <==> x in r.working && x.packed
    ensures r.notice == s.notice && r.input == s.input
    ensures r.selected == s.selected && r.sortValue == s.sortValue
  {
    var working := FlipById(s.working, id);
    s.(working := working, baseline := FlipById(s.baseline, id), cache := Packed(working))
  }

  /** The figures of the summary line: items on the list, items packed. */
  datatype Counts = Counts(total: nat, packed: nat)

  function Summary(s: State): Counts
  {
    Counts(|s.working|, |s.cache|)
  }

  /** After a checkbox click the summary's packed figure is the number of
      packed items on the list, and its total is unchanged. */
  lemma ToggleSummary(s: State, id: Id)
    requires id in Ids(s.working)
    ensures Summary(Toggle(s, id)).packed == Count(Toggle(s, id).working, IsPacked)
    ensures Summary(Toggle(s, id)).total == Summary(s).total
  {
    FilterCount(Toggle(s, id).working, IsPacked);
  }

  /** Clicking the same checkbox twice restores both lists. */
  lemma ToggleTwice(s: State, id: Id)
    requires id in Ids(s.working)
    ensures id in Ids(Toggle(s, id).working)
    ensures Toggle(Toggle(s, id), id).working == s.working
    ensures Toggle(Toggle(s, id), id).baseline == s.baseline
  {
    var t := Toggle(s, id);
    assert id in Ids(t.working) by {
      var x :| x in s.working && x.id == id;
      var i :| 0 <= i < |s.working| && s.working[i] == x;
      assert t.working[i].id == id;
    }
    var u := Toggle(t, id);
    forall i | 0 <= i < |s.working|
      ensures u.working[i] == s.working[i]
    {
      SameFields(u.working[i], s.working[i]);
    }
    forall i | 0 <= i < |s.baseline|
      ensures u.baseline[i] == s.baseline[i]
    {
      SameFields(u.baseline[i], s.baseline[i]);
    }
  }

  /** Deleting a present id from a list without repeated ids shortens the
      working list by one; deleting an absent id leaves its length. */
  lemma DeleteLength(s: State, id: Id)
    requires Unique(s.working)
    ensures |Delete(s, id).working| == if id in Ids(s.working) then |s.working| - 1 else |s.working|
  {
    WithoutIdLength(s.working, id);
  }

  /** Deleting the item shown at position `k` cuts exactly that row out of
      the working list, keeping the others in their shown order, and the
      baseline becomes that same list. */
  lemma DeleteCutsOut(s: State, id: Id, k: nat)
    requires Unique(s.working) && k < |s.working| && s.working[k].id == id
    ensures Delete(s, id).working == s.working[..k] + s.working[k + 1..]
    ensures Delete(s, id).baseline == s.working[..k] + s.working[k + 1..]
  {
    WithoutIdAt(s.working, id, k);
  }

  /** Deleting an item right after adding it restores the working list, but
      the baseline becomes that working list too. */
  lemma AddThenDelete(s: State, id: Id)
    requires Fresh(s, id) && !AllWhiteSpace(s.input) && |s.input| <= MaxTitle
    ensures Delete(Add(s, id), id).working == s.working
    ensures Delete(Add(s, id), id).baseline == s.working
    ensures Delete(Add(s, id), id).cache == s.cache
  {
    var a := Add(s, id);
    var item := a.working[|s.working|];
    assert a.working == s.working + [item];
    WithoutIdConcat(s.working, [item], id);
    assert WithoutId([item], id) == [];
  }

  /** Clear followed by the "default" sort brings back every cleared item:
      the working list becomes the untouched baseline, while the packed
      cache stays empty. */
  lemma ClearThenDefault(s: State)
    ensures Sort(Clear(s), Default).working == s.baseline
    ensures Sort(Clear(s), Default).cache == []
  {
  }

  /** Any sort followed by the "default" sort shows the baseline: sorting
      never loses the insertion order the baseline keeps. */
  lemma SortThenDefault(s: State, option: SortOption)
    ensures Sort(Sort(s, option), Default).working == s.baseline
    ensures Sort(Sort(s, option), Default).baseline == s.baseline
  {
  }

  /** Partitioning a list that is already partitioned the same way changes
      nothing: the stable partition is idempotent. */
  lemma SortIdempotent(s: State, option: SortOption)
    requires option != Default
    ensures Sort(Sort(s, option), option) == Sort(s, option)
  {
    var pf := option == Checked;
    var t := Sort(s, option);
    assert t.working == Arrange(s.working, pf);
    ArrangeIsStablePartition(s.working, pf);
    ArrangeIsStablePartition(t.working, pf);
    StablePartitionUnique(Arrange(t.working, pf), s.working, pf);
  }

  /** Switching the dropdown from one partitioning sort to the other and back
      shows the same list as before the switch: each partition keeps the
      order within the packed and within the unpacked items. */
  lemma SortSwitchBack(s: State, option: SortOption, other: SortOption)
    requires option != Default && other != Default && other != option
    ensures Sort(Sort(Sort(s, option), other), option) == Sort(s, option)
  {
    var pf := option == Checked;
    var t := Sort(s, option);
    var u := Sort(t, other);
    assert t.working == Arrange(s.working, pf);
    assert Sort(u, option).working == Arrange(u.working, pf);
    assert Packed(u.working) == Packed(s.working);
    assert Unpacked(u.working) == Unpacked(s.working);
  }
}
