# Packing list ("Far Away" trip list) — a verified state-machine model

The component is a single React view holding a packing list. Its logic is a
small state machine. It keeps:

- a **working list** (`data`): the rows shown, possibly reordered by sorting;
- a **baseline list** (`defaultData`): the rows in insertion order, used to
  restore the "default" sort;
- a **packed cache** (`checkedItems`): the packed rows, used by the summary line;
- the message slot (`errorMessage`), the draft title (`inputValue`), the
  selected quantity (`selectValue`) and the sort choice (`sortValue`).

Each handler is modelled as a total function `State -> State` over immutable
values:

- `Add` models `cardAdd`;
- `Delete` models `deleteFun`;
- `Clear` models `clearData`;
- `Sort` models `handleSortChange`;
- `Toggle` models the inline checkbox handler;
- `Summary` gives the two figures of the summary line.

The two input handlers are `TypeTitle` and `PickCount`. They only set one
field, so they carry no contract.

Modules, one per concept:

- `Seqs` (`seqs.dfy`): order-preserving `Filter` (JavaScript `Array.prototype.filter`) and its algebra.
- `JsText` (`js_text.dfy`): JavaScript strings as UTF-16 code-unit sequences. Here `length` is `|s|`, and `Trim` removes the white space and line terminators of ECMA-262, sections 12.2 and 12.3.
- `Items` (`items.dfy`): the item record, the packed/unpacked filters, removal by id, flag flip by id, and the stable partition with its uniqueness.
- `TripList` (`trip_list.dfy`): the state, the transitions and the lemmas relating them.
- `TripInvariant` (`invariant.dfy`): the invariant of reachable states, user-event runs, and the insertion-order property of the baseline.
- `TripScenarios` (`scenarios.dfy`): concrete sessions. One is a typical walk-through; the others show the two behaviours kept from the code that differ from the obvious reading.

Two behaviours of the code differ from the natural reading, which would have
Delete remove the item from both lists (a no-op for an absent id) and Clear
empty both. The model keeps what the code does:

- Delete does not filter the baseline; it overwrites it with the filtered working list (`src/App.jsx:53`). So the baseline takes on a sorted order if the working list was sorted. Items that only the baseline still held (after a Clear) are dropped. An absent id still overwrites the baseline.
- Clear leaves the baseline alone (`src/App.jsx:59-62`). A later switch to "default" therefore brings the cleared items back, while the packed cache stays empty.

## Model

| member | source | states |
|---|---|---|
| `JsText.Trim` | src/App.jsx:16 | The trimmed title is empty exactly when every code unit is white space; otherwise neither end of it is white space |
| `JsText.TrimIdempotent` | src/App.jsx:16 | Trimming an already trimmed title changes nothing |
| `Seqs.Filter` | src/App.jsx:46-51 | The filter keeps exactly the elements passing the test and is never longer than its input |
| `Seqs.FilterCount` | src/App.jsx:178 | The length of a filtered list equals the number of elements passing the test, counted one by one |
| `Seqs.FilterConcat` | src/App.jsx:71-80 | Filtering distributes over concatenation |
| `Items.WithoutId` | src/App.jsx:46-51 | After removal by id, an item is in the result iff it was in the list and has another id; an absent id leaves the list unchanged |
| `Items.WithoutIdLength` | src/App.jsx:46-48 | With unique ids, removing a present id shortens the list by exactly one; an absent id, by nothing |
| `Items.WithoutIdAt` | src/App.jsx:46-48 | With unique ids, removing the id at position k is the list with exactly position k cut out, order kept |
| `Items.FlipById` | src/App.jsx:143 | Flipping by id keeps length, ids, titles and quantities at every position, and changes the packed flag exactly where the id matches |
| `Items.ArrangeIsStablePartition` | src/App.jsx:69-80 | The two concatenated filters form a stable partition: the chosen group is ahead, each group is in its original order, and the result is a permutation of the input |
| `Items.StablePartitionUnique` | src/App.jsx:69-80 | Any list that is grouped and keeps each group's order is exactly the concatenation of the two filters |
| `Items.UniqueArrange` | src/App.jsx:69-80 | Partitioning never introduces a repeated id |
| `TripList.Add` | src/App.jsx:15-39 | An all-white-space title sets "You must write something to add" and keeps all lists, even when it is over 20 long. Otherwise a title longer than 20 before trimming sets "Character count should not exceed 20!" and keeps all lists. Otherwise one unpacked item with the untrimmed title, the selected quantity and the fresh id is appended to both lists, the input becomes empty, and the cache and message are kept |
| `TripList.Delete` | src/App.jsx:44-55 | The working list and the cache keep exactly their items with another id. The baseline becomes the new working list. With an absent id, the working list and the cache are unchanged |
| `TripList.DeleteLength` | src/App.jsx:44-55 | With unique ids, deleting a present id shortens the working list by one; an absent id, by nothing |
| `TripList.DeleteCutsOut` | src/App.jsx:46-53 | Deleting the row at position k cuts exactly that row out of the working list, in order, and the baseline becomes that list |
| `TripList.AddThenDelete` | src/App.jsx:36-54 | Deleting a just-added item restores the working list and the cache, and the baseline becomes the old working list |
| `TripList.Clear` | src/App.jsx:59-62 | The working list and the cache become empty; the baseline is kept |
| `TripList.ClearThenDefault` | src/App.jsx:59-83 | Clear followed by the "default" sort shows the whole untouched baseline, with the cache still empty |
| `TripList.Sort` | src/App.jsx:66-85 | "checked"/"unchecked" make the working list the stable partition of the old one, with packed/unpacked items ahead, and a permutation of it. "default" makes it equal to the baseline. The baseline and the cache are never touched |
| `TripList.SortThenDefault` | src/App.jsx:69-84 | Any sort followed by "default" shows the baseline |
| `TripList.SortIdempotent` | src/App.jsx:69-80 | Partitioning an already partitioned list the same way changes nothing |
| `TripList.SortSwitchBack` | src/App.jsx:66-80 | Switching from "checked" to "unchecked" and back, or the other way round, shows the same list and state as before the switch |
| `TripList.Toggle` | src/App.jsx:142-145 | In both lists the flag flips exactly at the item with that id; every other field and item is kept. The cache then holds exactly the packed items of the new working list |
| `TripList.ToggleTwice` | src/App.jsx:142-145 | Clicking the same checkbox twice restores both lists |
| `TripInvariant.InitWf` | src/App.jsx:5-11 | The page on mount (empty lists, "No items...", quantity 1, "default") is well formed and its summary reads 0 items, 0 packed |
| `TripInvariant.SummaryBounded` | src/App.jsx:177-178 | In every well-formed state, the summary's packed figure (`checkedItems.length`) is at most the number of packed items on the list, which is at most its total (`data.length`) |
| `TripList.ToggleSummary` | src/App.jsx:177-178 | After a checkbox click, the summary's packed figure equals the number of packed items in the working list, and the total is unchanged |
| `TripInvariant.AddWf` | src/App.jsx:28-38 | Adding with a fresh id keeps the invariant: ids unique per list, shown items lie in the baseline, cached items are shown and packed, items valid when created |
| `TripInvariant.DeleteWf` | src/App.jsx:44-55 | Delete keeps the invariant |
| `TripInvariant.ClearWf` | src/App.jsx:59-62 | Clear keeps the invariant |
| `TripInvariant.SortWf` | src/App.jsx:66-85 | Every sort keeps the invariant |
| `TripInvariant.ToggleWf` | src/App.jsx:142-145 | The checkbox keeps the invariant: flipping the shared item in both lists keeps every shown item in the baseline |
| `TripInvariant.RunWf` | src/App.jsx:5-11 | Every state reached from a well-formed state by allowed user actions is well formed. Allowed means: quantities 1 to 25, fresh ids, checkboxes only on shown rows, and a sort option other than the one in force (the dropdown is controlled by `sortValue`, `src/App.jsx:160-163`) |
| `TripInvariant.StepBaselineIds` | src/App.jsx:36-37 | Any action other than delete appends to the baseline's ids only the id of an accepted ADD click, and reorders nothing |
| `TripInvariant.BaselineIsInsertionOrder` | src/App.jsx:36-37 | With no delete in a run, the baseline's ids are the old ones followed by the ids of the accepted ADD clicks, in click order |
| `TripInvariant.DefaultAfterRun` | src/App.jsx:81-84 | With no delete in a run, "default" at its end shows the old baseline ids followed by the run's accepted ADD ids |
| `TripInvariant.DefaultShowsInsertionOrder` | src/App.jsx:81-84 | From a state with an empty baseline, such as the freshly mounted page, and with no delete, "default" shows the items in the order they were added, whatever sorts, clears and toggles came before |
| `TripScenarios.BlankBeforeLength` | src/App.jsx:16-27 | A 25-space title gets "You must write something to add", not the length message, and adds nothing |
| `TripScenarios.PassportAndShoes` | src/App.jsx:15-85 | Walk-through: add Passport(2) and Shoes(1), pack Passport (cache [Passport], summary 2/1), sort "checked", then "default" (Passport, Shoes both times), delete Shoes (Passport left) |
| `TripScenarios.ClearLeavesCacheStale` | src/App.jsx:59-83 | After pack and Clear, with "default" in force, picking "checked" and then "default" shows the packed item again while the summary reports 0 packed |
| `TripScenarios.DeleteKeepsSortedOrder` | src/App.jsx:52-53 | Items Tent, Map, Hat; pack Hat; sort "checked"; delete Tent. After that, "default" shows Hat, Map (the sorted order), not the insertion order |

## Left out

- JSX rendering and styles (`src/App.jsx:87-184`) are UI, not logic. This includes the "No items..." placeholder shown when the working list is empty. Only the two summary figures are modelled.
- The `setTimeout` callbacks that reset the message to "No items..." after 3 and 4 seconds are not modelled. Timers and the event loop are outside the model. The message is modelled only as the value set synchronously.
- `uuid`'s `v4()` is a foreign call. `Add` takes the new id as a parameter and requires that no list holds it.
- React's state batching and functional updaters are not modelled. Each handler is one atomic transition.
- The uncontrolled `defaultChecked` state of the checkbox element is not modelled.
- `selectValue` is a string in the component (initially "1"). Here it is an integer, and the item's quantity is that integer. Allowed runs only pick values 1 to 25, as the dropdown offers.
- The sort option is a three-valued datatype. The component sends any string other than "checked" or "unchecked" to the default branch, but its dropdown only offers these three.
- Toggle: the model requires the id to be in the working list. Only shown rows have a checkbox, so no other click is possible.
- Re-picking the sort option in force is not a user action: the dropdown never reports it, so the runs of `TripInvariant` exclude it. `Sort` is still total over every option. `SortIdempotent` therefore describes the list operation only. `ClearThenDefault`, `SortThenDefault` and the "default" lemmas of `TripInvariant` hold in every state, and so whenever "default" is picked from another option.
- `TripList.Summary` and `TripList.Init` only compute or define values. Their properties are stated by `SummaryBounded`, `ToggleSummary` and `InitWf`.
- TypeTitle and PickCount carry no contract. Each only sets its one field (`src/App.jsx:97`, `src/App.jsx:109`).
