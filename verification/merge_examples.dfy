/** The merge cases exercised by the repository's tests, as lemmas about `Merge`. */
module MergeExamples {
  import opened ConfigTree
  import opened Merging

  /** Nested dictionaries merge key by key; new keys are added at both levels. */
  lemma NestedDicts()
    ensures Merge(map["a" := Int(1), "b" := Dict(map["c" := Int(2), "d" := Int(3)])],
                  map["b" := Dict(map["d" := Int(4), "e" := Int(5)]), "f" := Int(6)])
            == map["a" := Int(1), "b" := Dict(map["c" := Int(2), "d" := Int(4), "e" := Int(5)]), "f" := Int(6)]
  {
    var base := map["a" := Int(1), "b" := Dict(map["c" := Int(2), "d" := Int(3)])];
    var overlay := map["b" := Dict(map["d" := Int(4), "e" := Int(5)]), "f" := Int(6)];
    var innerBase := map["c" := Int(2), "d" := Int(3)];
    var innerOverlay := map["d" := Int(4), "e" := Int(5)];
    MergeKeys(innerBase, innerOverlay);
    MergeAbsentKeepsBase(innerBase, innerOverlay, "c");
    MergeReplaces(innerBase, innerOverlay, "d");
    MergeReplaces(innerBase, innerOverlay, "e");
    assert Merge(innerBase, innerOverlay) == map["c" := Int(2), "d" := Int(4), "e" := Int(5)];
    MergeKeys(base, overlay);
    MergeAbsentKeepsBase(base, overlay, "a");
    MergeRecurses(base, overlay, "b");
    MergeReplaces(base, overlay, "f");
  }

  /** Scalars are overwritten; keys the overlay leaves out keep their values. */
  lemma NonDictOverwrites()
    ensures Merge(map["a" := Int(1), "b" := Dict(map["c" := Int(2), "d" := Int(3)])],
                  map["a" := Int(100), "b" := Dict(map["c" := Int(200)])])
            == map["a" := Int(100), "b" := Dict(map["c" := Int(200), "d" := Int(3)])]
  {
    var base := map["a" := Int(1), "b" := Dict(map["c" := Int(2), "d" := Int(3)])];
    var overlay := map["a" := Int(100), "b" := Dict(map["c" := Int(200)])];
    var innerBase := map["c" := Int(2), "d" := Int(3)];
    var innerOverlay := map["c" := Int(200)];
    MergeKeys(innerBase, innerOverlay);
    MergeReplaces(innerBase, innerOverlay, "c");
    MergeAbsentKeepsBase(innerBase, innerOverlay, "d");
    assert Merge(innerBase, innerOverlay) == map["c" := Int(200), "d" := Int(3)];
    MergeKeys(base, overlay);
    MergeReplaces(base, overlay, "a");
    MergeRecurses(base, overlay, "b");
  }

  /** An overlay that repeats values already present changes nothing. */
  lemma NoChanges()
    ensures Merge(map["a" := Int(1), "b" := Dict(map["c" := Int(2), "d" := Int(3)])],
                  map["a" := Int(1), "b" := Dict(map["c" := Int(2)])])
            == map["a" := Int(1), "b" := Dict(map["c" := Int(2), "d" := Int(3)])]
  {
    var base := map["a" := Int(1), "b" := Dict(map["c" := Int(2), "d" := Int(3)])];
    var overlay := map["a" := Int(1), "b" := Dict(map["c" := Int(2)])];
    var innerBase := map["c" := Int(2), "d" := Int(3)];
    var innerOverlay := map["c" := Int(2)];
    MergeKeys(innerBase, innerOverlay);
    MergeReplaces(innerBase, innerOverlay, "c");
    MergeAbsentKeepsBase(innerBase, innerOverlay, "d");
    assert Merge(innerBase, innerOverlay) == innerBase;
    MergeKeys(base, overlay);
    MergeReplaces(base, overlay, "a");
    MergeRecurses(base, overlay, "b");
  }

  /** An empty overlay leaves the base as it was. */
  lemma EmptyOverlay()
    ensures Merge(map["a" := Int(1), "b" := Dict(map["c" := Int(2)])], map[])
            == map["a" := Int(1), "b" := Dict(map["c" := Int(2)])]
  {
    MergeEmpty(map["a" := Int(1), "b" := Dict(map["c" := Int(2)])]);
  }

  /** Merging recurses through two levels of nesting next to a flat update. */
  lemma NestedAndFlat()
    ensures Merge(map["a" := Dict(map["b" := Dict(map["c" := Int(3)])]), "d" := Int(4)],
                  map["a" := Dict(map["b" := Dict(map["c" := Int(5), "e" := Int(6)])]), "d" := Int(7)])
            == map["a" := Dict(map["b" := Dict(map["c" := Int(5), "e" := Int(6)])]), "d" := Int(7)]
  {
    var base := map["a" := Dict(map["b" := Dict(map["c" := Int(3)])]), "d" := Int(4)];
    var overlay := map["a" := Dict(map["b" := Dict(map["c" := Int(5), "e" := Int(6)])]), "d" := Int(7)];
    var deepest := Merge(map["c" := Int(3)], map["c" := Int(5), "e" := Int(6)]);
    assert deepest == map["c" := Int(5), "e" := Int(6)];
    var midBase := map["b" := Dict(map["c" := Int(3)])];
    var midOverlay := map["b" := Dict(map["c" := Int(5), "e" := Int(6)])];
    MergeKeys(midBase, midOverlay);
    MergeRecurses(midBase, midOverlay, "b");
    assert Merge(midBase, midOverlay) == map["b" := Dict(deepest)];
    MergeKeys(base, overlay);
    MergeRecurses(base, overlay, "a");
    MergeReplaces(base, overlay, "d");
  }

  /** A `None` in the overlay neither overwrites nor adds a key. */
  lemma NoneSkipped()
    ensures Merge(map["a" := Int(1)], map["a" := Null, "b" := Null]) == map["a" := Int(1)]
  {
  }
}
