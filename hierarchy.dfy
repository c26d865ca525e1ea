/**
 * The docsearch hierarchy maps of a page record: dictionaries keyed
 * `lvl0` .. `lvl6` whose values are breadcrumb names or None
 * (`create_empty_hierarchy`, and the `range(7)` loop of
 * `create_index_list` that fills `hierarchy` and `hierarchy_complete`).
 */
module Hierarchy {
  import opened Wrappers
  import opened Text

  type Slots = map<string, Option<string>>

  /** Number of hierarchy levels docsearch uses. */
  const Levels: nat := 7

  /** The key of level k: `"lvl" + str(k)`. */
  function Lvl(k: nat): string
  {
    "lvl" + NatToString(k)
  }

  lemma LvlInjective(a: nat, b: nat)
    requires Lvl(a) == Lvl(b)
    ensures a == b
  {
    assert NatToString(a) == Lvl(a)[3..];
    assert NatToString(b) == Lvl(b)[3..];
    NatToStringInjective(a, b);
  }

  /** The keys of the first n levels. */
  function LevelKeys(n: nat): set<string>
  {
    set k: nat | k < n :: Lvl(k)
  }

  lemma LevelKeysStep(n: nat)
    ensures LevelKeys(n + 1) == LevelKeys(n) + {Lvl(n)}
  {
    forall key | key in LevelKeys(n + 1) ensures key in LevelKeys(n) + {Lvl(n)} {
      var k: nat :| k < n + 1 && key == Lvl(k);
      if k < n { assert key in LevelKeys(n); }
    }
  }

  /** Keys of distinct levels differ. */
  lemma LvlBelow(n: nat)
    ensures forall k: nat :: k < n ==> Lvl(k) != Lvl(n)
  {
    forall k: nat | k < n ensures Lvl(k) != Lvl(n) {
      if Lvl(k) == Lvl(n) { LvlInjective(k, n); }
    }
  }

  /** The map whose key of level k holds vals[k]. */
  function FromSlots(vals: seq<Option<string>>): Slots
    decreases |vals|
  {
    if |vals| == 0 then map[]
    else FromSlots(vals[..|vals| - 1])[Lvl(|vals| - 1) := vals[|vals| - 1]]
  }

  lemma FromSlotsFacts(vals: seq<Option<string>>)
    ensures FromSlots(vals).Keys == LevelKeys(|vals|)
    ensures forall k :: 0 <= k < |vals| ==> Lvl(k) in FromSlots(vals) && FromSlots(vals)[Lvl(k)] == vals[k]
  {
    FromSlotsKeys(vals);
    FromSlotsValues(vals);
  }

  lemma {:induction false} FromSlotsKeys(vals: seq<Option<string>>)
    ensures FromSlots(vals).Keys == LevelKeys(|vals|)
    decreases |vals|
  {
    if |vals| > 0 {
      var n := |vals| - 1;
      FromSlotsKeys(vals[..n]);
      LevelKeysStep(n);
    }
  }

  lemma {:induction false} FromSlotsValues(vals: seq<Option<string>>)
    ensures forall k :: 0 <= k < |vals| ==> Lvl(k) in FromSlots(vals) && FromSlots(vals)[Lvl(k)] == vals[k]
    decreases |vals|
  {
    if |vals| > 0 {
      var n := |vals| - 1;
      var prev := vals[..n];
      FromSlotsValues(prev);
      var before := FromSlots(prev);
      var m := before[Lvl(n) := vals[n]];
      assert FromSlots(vals) == m;
      forall k | 0 <= k < |vals| ensures Lvl(k) in m && m[Lvl(k)] == vals[k] {
        if k < n {
          if Lvl(k) == Lvl(n) { LvlInjective(k, n); }
          assert Lvl(k) in before && before[Lvl(k)] == prev[k] == vals[k];
        }
      }
    }
  }

  lemma PickLevel(key: string, n: nat) returns (k: nat)
    requires key in LevelKeys(n)
    ensures k < n && key == Lvl(k)
  {
    k :| k < n && key == Lvl(k);
  }

  /** A map with the keys of the first |vals| levels is fixed by its values there. */
  lemma SlotsUnique(m: Slots, vals: seq<Option<string>>)
    requires m.Keys == LevelKeys(|vals|)
    requires forall k :: 0 <= k < |vals| ==> m[Lvl(k)] == vals[k]
    ensures m == FromSlots(vals)
  {
    var f := FromSlots(vals);
    FromSlotsFacts(vals);
    assert m.Keys == f.Keys;
    assert forall key :: key in m ==> m[key] == f[key] by {
      forall key | key in m
        ensures m[key] == f[key]
      {
        var k := PickLevel(key, |vals|);
        assert m[Lvl(k)] == vals[k] == f[Lvl(k)];
      }
    }
    MapsEqual(m, f);
  }

  /** A solver hint: two maps with the same keys and the same values are equal. */
  lemma MapsEqual(m: Slots, f: Slots)
    requires m.Keys == f.Keys
    requires forall key :: key in m ==> m[key] == f[key]
    ensures m == f
  {
  }

  /** `create_empty_hierarchy()`: the seven level keys, every value None. */
  function EmptyHierarchy(): (h: Slots)
    ensures h.Keys == LevelKeys(Levels)
    ensures forall key :: key in h ==> h[key] == None
  {
    var vals: seq<Option<string>> := seq(Levels, _ => None);
    var h := FromSlots(vals);
    FromSlotsFacts(vals);
    assert forall key :: key in h ==> h[key] == None by {
      forall key | key in h ensures h[key] == None {
        var k := PickLevel(key, Levels);
      }
    }
    h
  }

  /** The loop of `create_empty_hierarchy`. */
  method CreateEmptyHierarchy() returns (emptyHierarchy: Slots)
    ensures emptyHierarchy.Keys == LevelKeys(Levels)
    ensures forall key :: key in emptyHierarchy ==> emptyHierarchy[key] == None
    ensures emptyHierarchy == EmptyHierarchy()
  {
    emptyHierarchy := map[];
    for levelIndex := 0 to Levels
      invariant emptyHierarchy.Keys == LevelKeys(levelIndex)
      invariant forall key :: key in emptyHierarchy ==> emptyHierarchy[key] == None
    {
      assert LevelKeys(levelIndex) + {Lvl(levelIndex)} == LevelKeys(levelIndex + 1);
      emptyHierarchy := emptyHierarchy[Lvl(levelIndex) := None];
    }
    SlotsUnique(emptyHierarchy, seq(Levels, _ => None));
  }

  function HierarchySlot(list: seq<string>, k: nat): Option<string>
  {
    if k < |list| then Some(list[k]) else None
  }

  function CompleteSlot(list: seq<string>, k: nat): Option<string>
  {
    if k < |list| then Some(Join(list[..k], " > ")) else None
  }

  /**
   * `hierarchy`: level k holds hierarchy_list[k] for every k below the
   * list's length (and below 7); the remaining levels are None.
   */
  function HierarchyOf(list: seq<string>): (h: Slots)
    ensures h.Keys == LevelKeys(Levels)
    ensures forall k :: 0 <= k < Levels ==> Lvl(k) in h && h[Lvl(k)] == if k < |list| then Some(list[k]) else None
  {
    var vals := seq(Levels, k => HierarchySlot(list, if k < 0 then 0 else k));
    assert forall k :: 0 <= k < Levels ==> vals[k] == HierarchySlot(list, k);
    FromSlotsFacts(vals);
    FromSlots(vals)
  }

  /**
   * `hierarchy_complete`: level k holds the first k entries of the list
   * (so level k itself excluded) joined with " > "; level 0 is "" (the
   * join of nothing); levels at or beyond the list's length are None.
   */
  function HierarchyCompleteOf(list: seq<string>): (h: Slots)
    ensures h.Keys == LevelKeys(Levels)
    ensures forall k :: 0 <= k < Levels ==>
      Lvl(k) in h && h[Lvl(k)] == if k < |list| then Some(Join(list[..k], " > ")) else None
    ensures |list| > 0 ==> Lvl(0) in h && h[Lvl(0)] == Some("")
  {
    var vals := seq(Levels, k => CompleteSlot(list, if k < 0 then 0 else k));
    assert forall k :: 0 <= k < Levels ==> vals[k] == CompleteSlot(list, k);
    FromSlotsFacts(vals);
    FromSlots(vals)
  }

  /** The first `level` slots of `h` hold `vals`, the others None. */
  predicate FilledBelow(h: Slots, vals: seq<Option<string>>, level: nat)
    requires |vals| == Levels
  {
    && h.Keys == LevelKeys(Levels)
    && forall k :: 0 <= k < Levels ==> Lvl(k) in h && h[Lvl(k)] == if k < level then vals[k] else None
  }

  lemma FillStart(vals: seq<Option<string>>)
    requires |vals| == Levels
    ensures FilledBelow(EmptyHierarchy(), vals, 0)
  {
    var h := EmptyHierarchy();
    forall k | 0 <= k < Levels ensures Lvl(k) in h && h[Lvl(k)] == None {
      assert Lvl(k) in LevelKeys(Levels);
    }
  }

  /** One turn of the fill loop: slot `level` is set when it has a value. */
  lemma FillStep(h: Slots, vals: seq<Option<string>>, level: nat)
    requires |vals| == Levels && level < Levels && FilledBelow(h, vals, level)
    ensures FilledBelow(if vals[level].Some? then h[Lvl(level) := vals[level]] else h, vals, level + 1)
  {
    var h' := if vals[level].Some? then h[Lvl(level) := vals[level]] else h;
    assert h'.Keys == h.Keys;
    forall k | 0 <= k < Levels ensures Lvl(k) in h' && h'[Lvl(k)] == if k < level + 1 then vals[k] else None {
      if k != level {
        if Lvl(k) == Lvl(level) { LvlInjective(k, level); }
      }
    }
  }

  lemma FillEnd(h: Slots, vals: seq<Option<string>>)
    requires |vals| == Levels && FilledBelow(h, vals, Levels)
    ensures h == FromSlots(vals)
  {
    SlotsUnique(h, vals);
  }

  /**
   * The `range(7)` loop of `create_index_list` that fills `hierarchy` and
   * `hierarchy_complete` from `hierarchy_list`.
   */
  method FillHierarchies(hierarchyList: seq<string>) returns (hierarchy: Slots, hierarchyComplete: Slots)
    ensures hierarchy == HierarchyOf(hierarchyList)
    ensures hierarchyComplete == HierarchyCompleteOf(hierarchyList)
  {
    ghost var vals := seq(Levels, k => HierarchySlot(hierarchyList, if k < 0 then 0 else k));
    ghost var completeVals := seq(Levels, k => CompleteSlot(hierarchyList, if k < 0 then 0 else k));
    hierarchy := CreateEmptyHierarchy();
    hierarchyComplete := CreateEmptyHierarchy();
    FillStart(vals);
    FillStart(completeVals);
    for level := 0 to Levels
      invariant FilledBelow(hierarchy, vals, level)
      invariant FilledBelow(hierarchyComplete, completeVals, level)
    {
      FillStep(hierarchy, vals, level);
      FillStep(hierarchyComplete, completeVals, level);
      assert vals[level] == HierarchySlot(hierarchyList, level);
      assert completeVals[level] == CompleteSlot(hierarchyList, level);
      if level < |hierarchyList| {
        hierarchy := hierarchy[Lvl(level) := Some(hierarchyList[level])];
        hierarchyComplete := hierarchyComplete[Lvl(level) := Some(Join(hierarchyList[..level], " > "))];
      }
    }
    FillEnd(hierarchy, vals);
    FillEnd(hierarchyComplete, completeVals);
  }

  /**
   * `hierarchy_radio`: the empty hierarchy with one entry set, at level
   * `level`, which may lie beyond lvl6 and then adds an eighth key.
   * Exactly one entry is not None.
   */
  function RadioOf(level: nat, name: string): (h: Slots)
    ensures h.Keys == LevelKeys(Levels) + {Lvl(level)}
    ensures h[Lvl(level)] == Some(name)
    ensures forall key :: key in h && key != Lvl(level) ==> h[key] == None
  {
    EmptyHierarchy()[Lvl(level) := Some(name)]
  }

  /**
   * Over `[base_level] + subpaths`, the radio entry (level |subpaths| - 1)
   * holds the name that `hierarchy` holds one level further down.
   */
  lemma RadioOneBelow(baseLevel: string, subpaths: seq<string>)
    requires 1 <= |subpaths| < Levels
    ensures var maxLvl := |subpaths| - 1;
      var h := HierarchyOf([baseLevel] + subpaths);
      var radio := RadioOf(maxLvl, subpaths[maxLvl]);
      Lvl(|subpaths|) in h && h[Lvl(|subpaths|)] == radio[Lvl(maxLvl)]
  {
    assert ([baseLevel] + subpaths)[|subpaths|] == subpaths[|subpaths| - 1];
  }

  /** The seven keys are exactly lvl0 .. lvl6. */
  lemma LevelKeysAreLvl0To6()
    ensures LevelKeys(Levels) == {"lvl0", "lvl1", "lvl2", "lvl3", "lvl4", "lvl5", "lvl6"}
  {
    assert Lvl(0) == "lvl0" && Lvl(1) == "lvl1" && Lvl(2) == "lvl2" && Lvl(3) == "lvl3";
    assert Lvl(4) == "lvl4" && Lvl(5) == "lvl5" && Lvl(6) == "lvl6";
    forall key | key in LevelKeys(Levels)
      ensures key in {"lvl0", "lvl1", "lvl2", "lvl3", "lvl4", "lvl5", "lvl6"}
    {
      var k := PickLevel(key, Levels);
    }
  }
}
