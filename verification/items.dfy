/** The packing-list item and the list operations the component performs on
    sequences of items: the packed/unpacked filters, removal by id, the
    in-place flag flip, and the stable partition used for sorting. */
module Items {
  import opened Seqs
  import opened JsText

  /** Item identity (a uuid in the component; any value with equality here). */
  type Id = nat

  /** Largest quantity the quantity dropdown offers (it offers 1 to 25). */
  const MaxCount: int := 25

  /** Longest title, in code units, that adding accepts. */
  const MaxTitle: int := 20

  /** One entry of the list. `packed` is the checkbox state (`isCheacked`). */
  datatype Item = Item(id: Id, title: JsString, count: int, packed: bool)

  predicate ValidCount(n: int)
  {
    1 <= n <= MaxCount
  }

  predicate IsPacked(x: Item)
  {
    x.packed
  }

  predicate IsUnpacked(x: Item)
  {
    !x.packed
  }

  /** The packed items, in list order. */
  function Packed(xs: seq<Item>): (r: seq<Item>)
    ensures forall x :: x in r <==> x in xs && x.packed
  {
    Filter(xs, IsPacked)
  }

  /** The unpacked items, in list order. */
  function Unpacked(xs: seq<Item>): (r: seq<Item>)
    ensures forall x :: x in r <==> x in xs && !x.packed
  {
    Filter(xs, IsUnpacked)
  }

  /** The ids occurring in a list. */
  function Ids(xs: seq<Item>): set<Id>
  {
    set x | x in xs :: x.id
  }

  /** The ids of a list, in list order. */
  function IdSeq(xs: seq<Item>): (r: seq<Id>)
    ensures |r| == |xs|
  {
    seq(|xs|, i requires 0 <= i < |xs| => xs[i].id)
  }

  /** No id occurs twice. */
  predicate Unique(xs: seq<Item>)
  {
    forall i, j :: 0 <= i < |xs| && 0 <= j < |xs| && xs[i].id == xs[j].id ==> i == j
  }

  /** The test `deleteFun` filters with: the item does not carry `id`. */
  function OtherThan(id: Id): Item -> bool
  {
    (x: Item) => x.id != id
  }

  /** The list with every item carrying `id` removed, order kept. */
  function WithoutId(xs: seq<Item>, id: Id): (r: seq<Item>)
    ensures forall x :: x in r <==> x in xs && x.id != id
    ensures id !in Ids(r)
    ensures id !in Ids(xs) ==> r == xs
  {
    AbsentIdKeepsAll(xs, id);
    Filter(xs, OtherThan(id))
  }

  /** Filtering out an id no item carries keeps every item. */
  lemma AbsentIdKeepsAll(xs: seq<Item>, id: Id)
    ensures id !in Ids(xs) ==> Filter(xs, OtherThan(id)) == xs
  {
    if id !in Ids(xs) {
      FilterAll(xs, OtherThan(id));
    }
  }

  /** Removal by id distributes over concatenation. */
  lemma WithoutIdConcat(a: seq<Item>, b: seq<Item>, id: Id)
    ensures WithoutId(a + b, id) == WithoutId(a, id) + WithoutId(b, id)
  {
    FilterConcat(a, b, OtherThan(id));
  }

  /** In a list without repeated ids, removing a present id shortens the list
      by exactly one; removing an absent id shortens it by nothing. */
  lemma WithoutIdLength(xs: seq<Item>, id: Id)
    requires Unique(xs)
    ensures |WithoutId(xs, id)| == if id in Ids(xs) then |xs| - 1 else |xs|
  {
    if id in Ids(xs) {
      var x :| x in xs && x.id == id;
      var k :| 0 <= k < |xs| && xs[k] == x;
      WithoutIdAt(xs, id, k);
    }
  }

  /** In a list without repeated ids, removing the id found at position `k`
      cuts out exactly that position and keeps the rest in order. */
  lemma WithoutIdAt(xs: seq<Item>, id: Id, k: nat)
    requires Unique(xs) && k < |xs| && xs[k].id == id
    ensures WithoutId(xs, id) == xs[..k] + xs[k + 1..]
  {
    var before, after := xs[..k], xs[k + 1..];
    assert xs == before + ([xs[k]] + after);
    forall i | 0 <= i < |before|
      ensures OtherThan(id)(before[i])
    {
      assert xs[i] == before[i];
    }
    forall i | 0 <= i < |after|
      ensures OtherThan(id)(after[i])
    {
      assert xs[k + 1 + i] == after[i];
    }
    FilterAll(before, OtherThan(id));
    FilterAll(after, OtherThan(id));
    FilterConcat(before, [xs[k]] + after, OtherThan(id));
    FilterConcat([xs[k]], after, OtherThan(id));
    var keep := OtherThan(id);
    assert Filter([xs[k]], keep) == [];
    assert Filter([xs[k]] + after, keep) == after;
    assert Filter(before + ([xs[k]] + after), keep) == before + after;
    assert WithoutId(xs, id) == Filter(xs, keep);
  }

  /** The item with its packed flag inverted, everything else kept. */
  function Flip(x: Item): (r: Item)
    ensures r.id == x.id && r.title == x.title && r.count == x.count
    ensures r.packed != x.packed
  {
    x.(packed := !x.packed)
  }

  /** The list with the flag of every item carrying `id` inverted. Positions,
      ids, titles and quantities are all kept; only the flags at `id` move. */
  function FlipById(xs: seq<Item>, id: Id): (r: seq<Item>)
    ensures |r| == |xs|
    ensures forall i :: 0 <= i < |xs| ==> Toggled(xs[i], r[i], xs[i].id == id)
  {
    seq(|xs|, i requires 0 <= i < |xs| => if xs[i].id == id then Flip(xs[i]) else xs[i])
  }

  /** `after` is `before` with its flag inverted exactly when `hit`. */
  predicate Toggled(before: Item, after: Item, hit: bool)
  {
    && after.id == before.id && after.title == before.title && after.count == before.count
    && (after.packed != before.packed <==> hit)
  }

  /** An item is determined by its four fields. */
  lemma SameFields(x: Item, y: Item)
    requires x.id == y.id && x.title == y.title && x.count == y.count && x.packed == y.packed
    ensures x == y
  {
  }

  /** Removing items never introduces a repeated id. */
  lemma {:induction false} UniqueFilter(xs: seq<Item>, p: Item -> bool)
    requires Unique(xs)
    ensures Unique(Filter(xs, p))
  {
    if |xs| > 0 {
      var rest := xs[1..];
      assert Unique(rest) by {
        forall i, j | 0 <= i < |rest| && 0 <= j < |rest| && rest[i].id == rest[j].id
          ensures i == j
        {
          assert xs[i + 1].id == xs[j + 1].id;
        }
      }
      UniqueFilter(rest, p);
      var tail := Filter(rest, p);
      if p(xs[0]) {
        forall y | y in tail
          ensures y.id != xs[0].id
        {
          var j :| 0 <= j < |rest| && rest[j] == y;
          assert xs[j + 1] == y;
        }
        UniqueConcat([xs[0]], tail);
      }
    }
  }

  /** Two lists without repeated ids and with no id in common concatenate to
      a list without repeated ids. */
  lemma UniqueConcat(a: seq<Item>, b: seq<Item>)
    requires Unique(a) && Unique(b)
    requires forall x, y :: x in a && y in b ==> x.id != y.id
    ensures Unique(a + b)
  {
    var c := a + b;
    forall i, j | 0 <= i < |c| && 0 <= j < |c| && c[i].id == c[j].id
      ensures i == j
    {
      if i >= |a| && j >= |a| {
        assert b[i - |a|].id == b[j - |a|].id;
      }
    }
  }

  /** Items are laid out in two groups: every item whose flag differs from a
      later one has the flag `packedFirst`. */
  predicate Grouped(r: seq<Item>, packedFirst: bool)
  {
    forall i, j :: 0 <= i < j < |r| && r[i].packed != r[j].packed ==> r[i].packed == packedFirst
  }

  /** `r` is a stable partition of `xs`: grouped with `packedFirst` items
      ahead, and the packed and the unpacked items each in their order in
      `xs`. */
  predicate StablePartition(r: seq<Item>, xs: seq<Item>, packedFirst: bool)
  {
    && Grouped(r, packedFirst)
    && Packed(r) == Packed(xs)
    && Unpacked(r) == Unpacked(xs)
  }

  /** The two filters, `packedFirst` group ahead. */
  function Arrange(xs: seq<Item>, packedFirst: bool): seq<Item>
  {
    if packedFirst then Packed(xs) + Unpacked(xs) else Unpacked(xs) + Packed(xs)
  }

  /** The packed and unpacked filters split a list's multiset between them. */
  lemma {:induction false} SplitMultiset(xs: seq<Item>)
    ensures multiset(Packed(xs)) + multiset(Unpacked(xs)) == multiset(xs)
  {
    if |xs| > 0 {
      var rest := xs[1..];
      SplitMultiset(rest);
      assert xs == [xs[0]] + rest;
      assert multiset(xs) == multiset([xs[0]]) + multiset(rest);
      FiltersOfCons(xs);
      if xs[0].packed {
        assert multiset(Packed(xs)) == multiset([xs[0]]) + multiset(Packed(rest));
        assert Unpacked(xs) == Unpacked(rest);
      } else {
        assert Packed(xs) == Packed(rest);
        assert multiset(Unpacked(xs)) == multiset([xs[0]]) + multiset(Unpacked(rest));
      }
    }
  }

  /** Each filter of the arranged list is the corresponding filter of the
      original list. */
  lemma ArrangeKeepsGroups(xs: seq<Item>, packedFirst: bool)
    ensures Packed(Arrange(xs, packedFirst)) == Packed(xs)
    ensures Unpacked(Arrange(xs, packedFirst)) == Unpacked(xs)
  {
    var p, u := Packed(xs), Unpacked(xs);
    FilterAll(p, IsPacked);
    FilterNone(p, IsUnpacked);
    FilterAll(u, IsUnpacked);
    FilterNone(u, IsPacked);
    if packedFirst {
      FilterConcat(p, u, IsPacked);
      FilterConcat(p, u, IsUnpacked);
    } else {
      FilterConcat(u, p, IsPacked);
      FilterConcat(u, p, IsUnpacked);
    }
  }

  /** The arranged list is grouped. */
  lemma ArrangeGrouped(xs: seq<Item>, packedFirst: bool)
    ensures Grouped(Arrange(xs, packedFirst), packedFirst)
  {
    var p, u := Packed(xs), Unpacked(xs);
    var r := Arrange(xs, packedFirst);
    var lead := if packedFirst then p else u;
    var trail := if packedFirst then u else p;
    assert r == lead + trail;
    forall i, j | 0 <= i < j < |r| && r[i].packed != r[j].packed
      ensures r[i].packed == packedFirst
    {
      if i < |lead| {
        assert r[i] in lead;
      }
    }
  }

  /** Concatenating the two filters yields a stable partition, and it is a
      permutation of the list. */
  lemma ArrangeIsStablePartition(xs: seq<Item>, packedFirst: bool)
    ensures StablePartition(Arrange(xs, packedFirst), xs, packedFirst)
    ensures multiset(Arrange(xs, packedFirst)) == multiset(xs)
    ensures |Arrange(xs, packedFirst)| == |xs|
  {
    SplitMultiset(xs);
    ArrangeKeepsGroups(xs, packedFirst);
    ArrangeGrouped(xs, packedFirst);
    assert |multiset(Arrange(xs, packedFirst))| == |multiset(xs)|;
  }

  /** Dropping the head of a grouped list leaves it grouped. */
  lemma GroupedTail(r: seq<Item>, packedFirst: bool)
    requires |r| > 0 && Grouped(r, packedFirst)
    ensures Grouped(r[1..], packedFirst)
  {
    var rest := r[1..];
    forall i, j | 0 <= i < j < |rest| && rest[i].packed != rest[j].packed
      ensures rest[i].packed == packedFirst
    {
      assert r[i + 1].packed != r[j + 1].packed;
    }
  }

  /** A grouped list that opens with the trailing group holds nothing else. */
  lemma GroupedUniform(r: seq<Item>, packedFirst: bool)
    requires |r| > 0 && Grouped(r, packedFirst) && r[0].packed != packedFirst
    ensures forall i :: 0 <= i < |r| ==> r[i].packed == r[0].packed
  {
  }

  /** How the two filters see the head of a list. */
  lemma FiltersOfCons(r: seq<Item>)
    requires |r| > 0
    ensures Packed(r) == (if r[0].packed then [r[0]] else []) + Packed(r[1..])
    ensures Unpacked(r) == (if r[0].packed then [] else [r[0]]) + Unpacked(r[1..])
  {
  }

  /** Prepending an element to a concatenation. */
  lemma ConsAssoc(x: Item, a: seq<Item>, b: seq<Item>)
    ensures [x] + (a + b) == ([x] + a) + b
  {
  }

  /** A list opening with an item of the leading group, whose tail is
      already arranged, is arranged. */
  lemma ArrangeCons(r: seq<Item>, packedFirst: bool)
    requires |r| > 0 && r[0].packed == packedFirst
    requires r[1..] == Arrange(r[1..], packedFirst)
    ensures r == Arrange(r, packedFirst)
  {
    var rest := r[1..];
    assert r == [r[0]] + rest;
    FiltersOfCons(r);
    var p, u := Packed(rest), Unpacked(rest);
    if packedFirst {
      assert Packed(r) == [r[0]] + p && Unpacked(r) == u;
      ConsAssoc(r[0], p, u);
    } else {
      assert Unpacked(r) == [r[0]] + u && Packed(r) == p;
      ConsAssoc(r[0], u, p);
    }
  }

  /** A list made only of trailing-group items is arranged. */
  lemma ArrangeUniform(r: seq<Item>, packedFirst: bool)
    requires forall i :: 0 <= i < |r| ==> r[i].packed != packedFirst
    ensures r == Arrange(r, packedFirst)
  {
    if packedFirst {
      FilterNone(r, IsPacked);
      FilterAll(r, IsUnpacked);
      assert Arrange(r, true) == [] + r;
    } else {
      FilterAll(r, IsPacked);
      FilterNone(r, IsUnpacked);
      assert Arrange(r, false) == [] + r;
    }
  }

  /** A grouped list is its leading group followed by its trailing group. */
  lemma {:induction false} GroupedSplit(r: seq<Item>, packedFirst: bool)
    requires Grouped(r, packedFirst)
    ensures r == Arrange(r, packedFirst)
  {
    if |r| > 0 {
      if r[0].packed == packedFirst {
        GroupedTail(r, packedFirst);
        GroupedSplit(r[1..], packedFirst);
        ArrangeCons(r, packedFirst);
      } else {
        GroupedUniform(r, packedFirst);
        ArrangeUniform(r, packedFirst);
      }
    } else {
      ArrangeUniform(r, packedFirst);
    }
  }

  /** Partitioning never introduces a repeated id. */
  lemma UniqueArrange(xs: seq<Item>, packedFirst: bool)
    requires Unique(xs)
    ensures Unique(Arrange(xs, packedFirst))
  {
    var p, u := Packed(xs), Unpacked(xs);
    UniqueFilter(xs, IsPacked);
    UniqueFilter(xs, IsUnpacked);
    forall x, y | (x in p && y in u) || (x in u && y in p)
      ensures x.id != y.id
    {
      var i :| 0 <= i < |xs| && xs[i] == x;
      var j :| 0 <= j < |xs| && xs[j] == y;
      assert x.packed != y.packed;
    }
    if packedFirst {
      UniqueConcat(p, u);
    } else {
      UniqueConcat(u, p);
    }
  }

  /** The stable partition of a list is unique: any list meeting the
      definition is the concatenation of the two filters. */
  lemma StablePartitionUnique(r: seq<Item>, xs: seq<Item>, packedFirst: bool)
    requires StablePartition(r, xs, packedFirst)
    ensures r == Arrange(xs, packedFirst)
  {
    GroupedSplit(r, packedFirst);
  }
}
