/** `Config.deep_update`: the recursive merge of an overlay dictionary into a
    base dictionary, used by every layer of the resolver. The source updates
    `base` in place; here the merge returns the updated dictionary. */
module Merging {
  import opened Results
  import opened ConfigTree

  /** Keys of `overlay` whose value is not `None`: the only keys a merge writes. */
  function WrittenKeys(overlay: Tree): set<string> {
    set k | k in overlay && overlay[k] != Null
  }

  /** The dictionary `base` becomes after `deep_update(base, overlay)`. For each
      key of the overlay: when both sides hold a dictionary the merge recurses;
      otherwise a value other than `None` replaces the base value wholesale, and
      `None` is skipped. */
  function Merge(base: Tree, overlay: Tree): Tree
    decreases Dict(overlay)
  {
    map k | k in base.Keys + WrittenKeys(overlay) ::
      if k in overlay && overlay[k].Dict? && k in base && base[k].Dict? then
        Dict(Merge(base[k].d, overlay[k].d))
      else if k in overlay && overlay[k] != Null then
        overlay[k]
      else
        base[k]
  }

  /** The overlay restricted to the keys outside `pending`: what the source's
      loop has already visited. */
  function Visited(overlay: Tree, pending: set<string>): Tree {
    map k | k in overlay && k !in pending :: overlay[k]
  }

  /** The loop of `deep_update` as written: visit the overlay's keys one by one,
      in whatever order the dictionary yields them, and update `config` in
      place. Its result is `Merge`, whatever the order. */
  method DeepUpdate(config: Tree, overlay: Tree) returns (r: Tree)
    ensures r == Merge(config, overlay)
    decreases Dict(overlay)
  {
    r := config;
    var pending := overlay.Keys;
    while pending != {}
      invariant pending <= overlay.Keys
      invariant r == Merge(config, Visited(overlay, pending))
      decreases pending
    {
      var key :| key in pending;
      var value := overlay[key];
      MergeVisitOne(config, overlay, pending, key);
      if value.Dict? && key in r && r[key].Dict? {
        var inner := DeepUpdate(r[key].d, value.d);
        r := r[key := Dict(inner)];
      } else if value != Null {
        r := r[key := value];
      }
      pending := pending - {key};
    }
    assert Visited(overlay, {}) == overlay;
  }

  /** The merged value of one key, written as a case split over the overlay. */
  function MergedAt(base: Tree, overlay: Tree, key: string): Option<Value> {
    if key in overlay && overlay[key].Dict? && key in base && base[key].Dict? then
      Some(Dict(Merge(base[key].d, overlay[key].d)))
    else if key in overlay && overlay[key] != Null then Some(overlay[key])
    else if key in base then Some(base[key])
    else None
  }

  /** Adding one key to an overlay changes the merge at that key only. */
  lemma MergeExtend(base: Tree, overlay: Tree, key: string, v: Value)
    requires key !in overlay
    ensures Merge(base, overlay[key := v]) ==
              match MergedAt(base, overlay[key := v], key)
              case Some(w) => Merge(base, overlay)[key := w]
              case None => Merge(base, overlay)
  {
    var o' := overlay[key := v];
    var after := Merge(base, o');
    var before := Merge(base, overlay);
    var expected := match MergedAt(base, o', key)
                    case Some(w) => before[key := w]
                    case None => before;
    assert after.Keys == expected.Keys;
    forall k | k in after
      ensures after[k] == expected[k]
    {
      if k != key {
        assert after[k] == before[k];
      }
    }
  }

  /** One step of the loop: merging one more overlay key changes only that key. */
  lemma MergeVisitOne(config: Tree, overlay: Tree, pending: set<string>, key: string)
    requires key in pending && pending <= overlay.Keys
    ensures var before := Merge(config, Visited(overlay, pending));
            var after := Merge(config, Visited(overlay, pending - {key}));
            && (key in before <==> key in config)
            && (key in before ==> before[key] == config[key])
            && after == (match MergedAt(config, overlay, key)
                         case Some(w) => before[key := w]
                         case None => before)
  {
    var visited := Visited(overlay, pending);
    assert Visited(overlay, pending - {key}) == visited[key := overlay[key]];
    MergeExtend(config, visited, key, overlay[key]);
  }

  /** The merged dictionary holds the base keys plus the overlay keys whose value is not `None`. */
  lemma MergeKeys(base: Tree, overlay: Tree)
    ensures Merge(base, overlay).Keys == base.Keys + WrittenKeys(overlay)
    ensures forall k :: k in Merge(base, overlay) <==> k in base || (k in overlay && overlay[k] != Null)
  {
  }

  /** A key the overlay leaves out or sets to `None` keeps its base value, and is
      not added when the base lacks it. */
  lemma MergeAbsentKeepsBase(base: Tree, overlay: Tree, key: string)
    requires key !in overlay || overlay[key] == Null
    ensures key in Merge(base, overlay) <==> key in base
    ensures key in base ==> Merge(base, overlay)[key] == base[key]
  {
  }

  /** Merging an empty overlay is the identity. */
  lemma MergeEmpty(base: Tree)
    ensures Merge(base, map[]) == base
  {
  }

  /** A value other than `None` replaces the base value wholesale unless both are
      dictionaries; in particular a dictionary stored under a key whose base value
      is missing or not a dictionary is inserted as is, `None` entries included. */
  lemma MergeReplaces(base: Tree, overlay: Tree, key: string)
    requires key in overlay && overlay[key] != Null
    requires !(overlay[key].Dict? && key in base && base[key].Dict?)
    ensures key in Merge(base, overlay) && Merge(base, overlay)[key] == overlay[key]
  {
  }

  /** Where both sides hold a dictionary, the result merges them key by key. */
  lemma MergeRecurses(base: Tree, overlay: Tree, key: string)
    requires key in overlay && overlay[key].Dict? && key in base && base[key].Dict?
    ensures key in Merge(base, overlay)
    ensures Merge(base, overlay)[key] == Dict(Merge(base[key].d, overlay[key].d))
  {
  }

  /** Every leaf the overlay sets (a value that is neither `None` nor a
      dictionary), at any depth, is found at the same path in the result. */
  lemma {:induction false} OverlayLeafWins(base: Tree, overlay: Tree, path: seq<string>)
    requires At(overlay, path).Some?
    requires At(overlay, path).value != Null && !At(overlay, path).value.Dict?
    ensures At(Merge(base, overlay), path) == At(overlay, path)
    decreases |path|
  {
    var k := path[0];
    var r := Merge(base, overlay);
    if |path| > 1 && k in base && base[k].Dict? {
      MergeRecurses(base, overlay, k);
      OverlayLeafWins(base[k].d, overlay[k].d, path[1..]);
    }
  }

  /** The overlay says nothing about `path`: along it the overlay has a missing
      key, a `None`, or only dictionaries that themselves say nothing. */
  predicate Silent(overlay: Tree, path: seq<string>)
    decreases |path|
  {
    |path| > 0 &&
    (path[0] !in overlay || overlay[path[0]] == Null ||
     (overlay[path[0]].Dict? && |path| > 1 && Silent(overlay[path[0]].d, path[1..])))
  }

  /** Absence never overwrites: a base value at a path the overlay is silent about
      survives the merge unchanged, at any depth. */
  lemma {:induction false} SilentPathKeepsBase(base: Tree, overlay: Tree, path: seq<string>)
    requires Silent(overlay, path)
    requires At(base, path).Some?
    ensures At(Merge(base, overlay), path) == At(base, path)
    decreases |path|
  {
    var k := path[0];
    if k in overlay && overlay[k] != Null {
      MergeRecurses(base, overlay, k);
      SilentPathKeepsBase(base[k].d, overlay[k].d, path[1..]);
    } else {
      MergeAbsentKeepsBase(base, overlay, k);
    }
  }

  /** Every value the overlay would write already sits in the base: its leaves
      equal the base's, and its dictionaries agree with the base's dictionaries. */
  predicate Agrees(base: Tree, overlay: Tree)
    decreases Dict(overlay)
  {
    forall k | k in overlay ::
      overlay[k] == Null ||
      (k in base &&
       if overlay[k].Dict? && base[k].Dict? then Agrees(base[k].d, overlay[k].d)
       else base[k] == overlay[k])
  }

  /** Every dictionary agrees with itself. */
  lemma {:induction false} AgreesWithSelf(t: Tree)
    ensures Agrees(t, t)
    decreases Dict(t)
  {
    forall k | k in t && t[k].Dict?
      ensures Agrees(t[k].d, t[k].d)
    {
      AgreesWithSelf(t[k].d);
    }
  }

  /** A merge leaves the base unchanged exactly when the overlay agrees with it. */
  lemma {:induction false} MergeUnchangedIffAgrees(base: Tree, overlay: Tree)
    ensures Merge(base, overlay) == base <==> Agrees(base, overlay)
    decreases Dict(overlay)
  {
    var r := Merge(base, overlay);
    if Agrees(base, overlay) {
      forall k | k in overlay && overlay[k].Dict? && k in base && base[k].Dict?
        ensures Merge(base[k].d, overlay[k].d) == base[k].d
      {
        MergeUnchangedIffAgrees(base[k].d, overlay[k].d);
      }
      assert r.Keys == base.Keys;
      forall k | k in r
        ensures r[k] == base[k]
      {
      }
    }
    if r == base {
      forall k | k in overlay && overlay[k] != Null
        ensures k in base &&
                if overlay[k].Dict? && base[k].Dict? then Agrees(base[k].d, overlay[k].d)
                else base[k] == overlay[k]
      {
        assert k in r;
        if overlay[k].Dict? && base[k].Dict? {
          assert Dict(Merge(base[k].d, overlay[k].d)) == r[k];
          MergeUnchangedIffAgrees(base[k].d, overlay[k].d);
        }
      }
    }
  }

  /** After a merge the overlay agrees with the result. */
  lemma {:induction false} MergeAgrees(base: Tree, overlay: Tree)
    ensures Agrees(Merge(base, overlay), overlay)
    decreases Dict(overlay)
  {
    var r := Merge(base, overlay);
    forall k | k in overlay && overlay[k] != Null
      ensures k in r &&
              if overlay[k].Dict? && r[k].Dict? then Agrees(r[k].d, overlay[k].d)
              else r[k] == overlay[k]
    {
      if overlay[k].Dict? && k in base && base[k].Dict? {
        MergeAgrees(base[k].d, overlay[k].d);
      } else if overlay[k].Dict? {
        AgreesWithSelf(overlay[k].d);
      }
    }
  }

  /** Merging the same overlay twice equals merging it once. */
  lemma MergeIdempotent(base: Tree, overlay: Tree)
    ensures Merge(Merge(base, overlay), overlay) == Merge(base, overlay)
  {
    MergeAgrees(base, overlay);
    MergeUnchangedIffAgrees(Merge(base, overlay), overlay);
  }

  /** A section-level reading of the merge for a leaf stored two levels down:
      the overlay's value wins unless it is absent or `None`. */
  lemma MergeLookup(base: Tree, overlay: Tree, section: string, key: string)
    requires SectionIsDict(base, section)
    requires section in overlay ==> overlay[section].Dict? || overlay[section] == Null
    requires Lookup(overlay, section, key).Some? ==> !Lookup(overlay, section, key).value.Dict?
    ensures SectionIsDict(Merge(base, overlay), section)
    ensures Lookup(Merge(base, overlay), section, key) ==
              match Lookup(overlay, section, key)
              case Some(v) => if v != Null then Some(v) else Lookup(base, section, key)
              case None => Lookup(base, section, key)
  {
    if section in overlay && overlay[section].Dict? {
      MergeRecurses(base, overlay, section);
      var inner := Merge(base[section].d, overlay[section].d);
      if key in overlay[section].d && overlay[section].d[key] != Null {
        MergeReplaces(base[section].d, overlay[section].d, key);
      } else {
        MergeAbsentKeepsBase(base[section].d, overlay[section].d, key);
      }
    } else {
      MergeAbsentKeepsBase(base, overlay, section);
    }
  }
}
