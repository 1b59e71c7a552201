/** Concrete runs of the packing list: the walk-through of a typical session,
    and the two places where the component's behaviour departs from the
    obvious reading (both kept as the component has them). */
module TripScenarios {
  import opened JsText
  import opened Seqs
  import opened Items
  import opened TripList

  const Passport: JsString := [0x50, 0x61, 0x73, 0x73, 0x70, 0x6F, 0x72, 0x74]
  const Shoes: JsString := [0x53, 0x68, 0x6F, 0x65, 0x73]
  const Tent: JsString := [0x54, 0x65, 0x6E, 0x74]
  const Map: JsString := [0x4D, 0x61, 0x70]
  const Hat: JsString := [0x48, 0x61, 0x74]

  /** Twenty-five spaces: blank, and longer than the limit. */
  const Spaces: JsString := seq(25, _ => 0x20)

  /** Type a title, pick a quantity, click ADD. */
  function Enter(s: State, title: JsString, n: int, id: Id): State
    requires Fresh(s, id)
  {
    Add(PickCount(TypeTitle(s, title), n), id)
  }

  /** The blank check runs before the length check: a white-space title longer
      than the limit gets the "must write something" message and adds
      nothing. */
  lemma BlankBeforeLength()
    ensures |Spaces| > MaxTitle
    ensures Add(TypeTitle(Init, Spaces), 1).notice == MustWrite
    ensures Add(TypeTitle(Init, Spaces), 1).working == []
  {
    assert AllWhiteSpace(Spaces);
  }

  /** The packed and unpacked filters of a two-item list, spelled out. */
  lemma FiltersOfPair(x: Item, y: Item)
    ensures Packed([x, y]) == (if x.packed then [x] else []) + (if y.packed then [y] else [])
    ensures Unpacked([x, y]) == (if x.packed then [] else [x]) + (if y.packed then [] else [y])
  {
    FiltersOfCons([x, y]);
    assert [x, y][1..] == [y];
    FiltersOfCons([y]);
    assert [y][1..] == [];
  }

  const P: Item := Item(1, Passport, 2, false)
  const PackedP: Item := Item(1, Passport, 2, true)
  const S: Item := Item(2, Shoes, 1, false)

  /** The states of the walk-through below. */
  const OnePassport: State := State([P], [P], [], NoItems, [], 2, Default)
  const PassportShoes: State := State([P, S], [P, S], [], NoItems, [], 1, Default)
  const PassportPacked: State := State([PackedP, S], [PackedP, S], [PackedP], NoItems, [], 1, Default)

  lemma AddPassport()
    ensures Enter(Init, Passport, 2, 1) == OnePassport
  {
    assert !IsWhiteSpace(Passport[0]);
  }

  lemma AddShoes()
    ensures Fresh(OnePassport, 2)
    ensures Enter(OnePassport, Shoes, 1, 2) == PassportShoes
  {
    assert !IsWhiteSpace(Shoes[0]);
    assert Ids([P]) == {1};
  }

  lemma PackPassport()
    ensures 1 in Ids(PassportShoes.working)
    ensures Toggle(PassportShoes, 1) == PassportPacked
  {
    assert P in PassportShoes.working;
    var r := Toggle(PassportShoes, 1);
    SameFields(r.working[0], PackedP);
    SameFields(r.working[1], S);
    SameFields(r.baseline[0], PackedP);
    SameFields(r.baseline[1], S);
    assert r.working == [PackedP, S];
    FiltersOfPair(PackedP, S);
  }

  lemma SortPassportPacked()
    ensures Sort(PassportPacked, Checked).working == [PackedP, S]
  {
    FiltersOfPair(PackedP, S);
  }

  lemma DeleteShoes(s: State)
    requires s.working == [PackedP, S]
    ensures Delete(s, 2).working == [PackedP]
  {
    WithoutIdConcat([PackedP], [S], 2);
    assert [PackedP, S] == [PackedP] + [S];
  }

  /** Add Passport (2) and Shoes (1), pack Passport, sort "checked", sort
      "default", delete Shoes: the list reads Passport, Shoes until the
      delete and Passport after it, and one item is reported packed. */
  lemma PassportAndShoes()
    ensures
      var s2 := Enter(Init, Passport, 2, 1);
      Fresh(s2, 2) &&
      var s3 := Enter(s2, Shoes, 1, 2);
      && s3.working == [P, S]
      && 1 in Ids(s3.working) &&
      var s4 := Toggle(s3, 1);
      && s4.cache == [PackedP]
      && Summary(s4) == Counts(2, 1)
      && Sort(s4, Checked).working == [PackedP, S]
      && Sort(Sort(s4, Checked), Default).working == [PackedP, S]
      && Delete(Sort(Sort(s4, Checked), Default), 2).working == [PackedP]
  {
    AddPassport();
    AddShoes();
    PackPassport();
    SortPassportPacked();
    DeleteShoes(Sort(Sort(PassportPacked, Checked), Default));
  }

  /** Clear keeps the baseline, so "default" brings a cleared packed item
      back while the packed cache stays empty: the summary then reports
      nothing packed although one shown item is packed. "Default" is in force
      after the clear, so the dropdown goes to "checked" (sorting the empty
      list) and back to "default". */
  lemma ClearLeavesCacheStale()
    ensures
      var s1 := Enter(Init, Tent, 1, 1);
      1 in Ids(s1.working) &&
      var cleared := Clear(Toggle(s1, 1));
      && cleared.sortValue == Default
      && Sort(cleared, Checked).working == [] &&
      var s2 := Sort(Sort(cleared, Checked), Default);
      && s2.working == [Item(1, Tent, 1, true)]
      && Summary(s2).packed == 0
      && Count(s2.working, IsPacked) == 1
  {
    assert !IsWhiteSpace(Tent[0]);
    var t := Item(1, Tent, 1, false);
    var s1 := Enter(Init, Tent, 1, 1);
    assert s1.working == [t] && s1.baseline == [t];
    assert 1 in Ids(s1.working) by { assert t in s1.working; }
    var s := Toggle(s1, 1);
    SameFields(s.baseline[0], Item(1, Tent, 1, true));
    assert s.baseline == [Item(1, Tent, 1, true)];
  }

  const A: Item := Item(1, Tent, 1, false)
  const B: Item := Item(2, Map, 1, false)
  const C: Item := Item(3, Hat, 1, false)
  const PackedC: Item := Item(3, Hat, 1, true)

  /** The states of the delete example below. */
  const TentOnly: State := State([A], [A], [], NoItems, [], 1, Default)
  const TentMap: State := State([A, B], [A, B], [], NoItems, [], 1, Default)
  const TentMapHat: State := State([A, B, C], [A, B, C], [], NoItems, [], 1, Default)
  const HatPacked: State := State([A, B, PackedC], [A, B, PackedC], [PackedC], NoItems, [], 1, Default)
  const HatFirst: State := State([PackedC, A, B], [A, B, PackedC], [PackedC], NoItems, [], 1, Checked)

  lemma AddTent()
    ensures Enter(Init, Tent, 1, 1) == TentOnly
  {
    assert !IsWhiteSpace(Tent[0]);
  }

  lemma AddMap()
    ensures Fresh(TentOnly, 2) && Enter(TentOnly, Map, 1, 2) == TentMap
  {
    assert !IsWhiteSpace(Map[0]);
    assert Ids([A]) == {1};
  }

  lemma AddHat()
    ensures Fresh(TentMap, 3) && Enter(TentMap, Hat, 1, 3) == TentMapHat
  {
    assert !IsWhiteSpace(Hat[0]);
    assert Ids([A, B]) == {1, 2};
  }

  lemma PackHat()
    ensures 3 in Ids(TentMapHat.working)
    ensures Toggle(TentMapHat, 3) == HatPacked
  {
    assert C in TentMapHat.working;
    var r := Toggle(TentMapHat, 3);
    SameFields(r.working[0], A);
    SameFields(r.working[1], B);
    SameFields(r.working[2], PackedC);
    SameFields(r.baseline[0], A);
    SameFields(r.baseline[1], B);
    SameFields(r.baseline[2], PackedC);
    assert r.working == [A, B, PackedC];
    HatFilters();
  }

  lemma HatFilters()
    ensures Packed([A, B, PackedC]) == [PackedC]
    ensures Unpacked([A, B, PackedC]) == [A, B]
  {
    FiltersOfCons([A, B, PackedC]);
    assert [A, B, PackedC][1..] == [B, PackedC];
    FiltersOfPair(B, PackedC);
  }

  lemma SortHatFirst()
    ensures Sort(HatPacked, Checked) == HatFirst
  {
    HatFilters();
    assert Arrange([A, B, PackedC], true) == [PackedC] + [A, B];
  }

  lemma DeleteTent()
    ensures Delete(HatFirst, 1).working == [PackedC, B]
    ensures Delete(HatFirst, 1).baseline == [PackedC, B]
  {
    var kept := [PackedC, B];
    assert kept == [PackedC, A, B][..1] + [PackedC, A, B][2..];
    assert Unique([PackedC, A, B]);
    WithoutIdAt([PackedC, A, B], 1, 1);
  }

  /** Delete copies the sorted working list over the baseline, so after a
      "checked" sort and a delete, "default" keeps the sorted order (Hat,
      Map) instead of the insertion order (Map, Hat). */
  lemma DeleteKeepsSortedOrder()
    ensures
      var s1 := Enter(Init, Tent, 1, 1);
      Fresh(s1, 2) &&
      var s2 := Enter(s1, Map, 1, 2);
      Fresh(s2, 3) &&
      var s3 := Enter(s2, Hat, 1, 3);
      && s3.baseline == [A, B, C]
      && 3 in Ids(s3.working) &&
      var s4 := Delete(Sort(Toggle(s3, 3), Checked), 1);
      Sort(s4, Default).working == [PackedC, B]
  {
    AddTent();
    AddMap();
    AddHat();
    PackHat();
    SortHatFirst();
    DeleteTent();
  }
}
