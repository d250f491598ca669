/** onFinish: validate the form, then emit one relic for every combination of
    four substats, every distribution of the upgrade points over them, every
    chosen set and every chosen main stat the combination does not contain. */
module Generator {
  import opened Stats
  import opened Combinations
  import opened Upgrades
  import opened Validation

  /** Some substat of subStats is the stat m. */
  predicate Overlaps(m: StatId, subStats: seq<Substat>)
  {
    exists j :: 0 <= j < |subStats| && subStats[j].stat == m
  }

  /** overlappingStats(mainStat, subStats). */
  method OverlappingStats(mainStat: StatId, subStats: seq<Substat>) returns (r: bool)
    ensures r <==> Overlaps(mainStat, subStats)
  {
    for j := 0 to |subStats|
      invariant forall i :: 0 <= i < j ==> subStats[i].stat != mainStat
    {
      if mainStat == subStats[j].stat {
        return true;
      }
    }
    return false;
  }

  /** An upgrade with each count replaced by the substat value it stands for. */
  function Resolve(cat: Catalog, upgrade: seq<SubstatCount>): seq<Substat>
  {
    seq(|upgrade|, j requires 0 <= j < |upgrade| =>
      Substat(upgrade[j].stat, SubstatValue(cat, upgrade[j].stat, upgrade[j].count)))
  }

  /** The loop that turns each substat's upgrade count into its value. */
  method ResolveUpgrade(cat: Catalog, upgrade: seq<SubstatCount>) returns (resolved: seq<Substat>)
    ensures |resolved| == |upgrade|
    ensures forall j :: 0 <= j < |upgrade| ==>
      resolved[j].stat == upgrade[j].stat &&
      resolved[j].value == SubstatValue(cat, upgrade[j].stat, upgrade[j].count)
  {
    resolved := [];
    for j := 0 to |upgrade|
      invariant |resolved| == j
      invariant forall i :: 0 <= i < j ==>
        resolved[i].stat == upgrade[i].stat &&
        resolved[i].value == SubstatValue(cat, upgrade[i].stat, upgrade[i].count)
    {
      var substat := upgrade[j];
      resolved := resolved + [Substat(substat.stat, cat.subHigh(substat.stat, GRADE) * ((1 + substat.count) as real))];
    }
  }

  function MakeRelic(cat: Catalog, part: Part, name: SetName, m: StatId, subStats: seq<Substat>): Relic
  {
    Relic(MAX_ENHANCE, GRADE, part, name, MainStat(m, MainValue(cat, m)), subStats)
  }

  // ---- The relics emitted, level by level of the nested loops ----

  function EmitMains(cat: Catalog, part: Part, name: SetName, mainStats: seq<StatId>, subStats: seq<Substat>): seq<Relic>
  {
    if mainStats == [] then []
    else (if Overlaps(mainStats[0], subStats) then [] else [MakeRelic(cat, part, name, mainStats[0], subStats)])
         + EmitMains(cat, part, name, mainStats[1..], subStats)
  }

  function EmitSets(cat: Catalog, part: Part, sets: seq<SetName>, mainStats: seq<StatId>, subStats: seq<Substat>): seq<Relic>
  {
    if sets == [] then []
    else EmitMains(cat, part, sets[0], mainStats, subStats) + EmitSets(cat, part, sets[1..], mainStats, subStats)
  }

  function EmitUpgrades(cat: Catalog, part: Part, sets: seq<SetName>, mainStats: seq<StatId>,
                        upgrades: seq<seq<SubstatCount>>): seq<Relic>
  {
    if upgrades == [] then []
    else EmitSets(cat, part, sets, mainStats, Resolve(cat, upgrades[0]))
         + EmitUpgrades(cat, part, sets, mainStats, upgrades[1..])
  }

  function EmitCombos(cat: Catalog, part: Part, sets: seq<SetName>, mainStats: seq<StatId>,
                      combos: seq<seq<StatId>>): seq<Relic>
  {
    if combos == [] then []
    else EmitUpgrades(cat, part, sets, mainStats, Dists(Wrap(combos[0]), UPGRADE_POINTS, 0))
         + EmitCombos(cat, part, sets, mainStats, combos[1..])
  }

  /** Everything a run on a valid form hands to the relic store, in order. */
  function Generate(cat: Catalog, part: Part, sets: seq<SetName>, mainStats: seq<StatId>, subStats: seq<StatId>): seq<Relic>
  {
    EmitCombos(cat, part, sets, mainStats, Combos(subStats, SUBSTATS_PER_RELIC, 0, []))
  }

  /** The relic store every generated relic is handed to. */
  class RelicStore {
    var relics: seq<Relic>

    constructor ()
      ensures relics == []
    {
      relics := [];
    }

    method SetRelic(relic: Relic)
      modifies this
      ensures relics == old(relics) + [relic]
    {
      relics := relics + [relic];
    }
  }

  /** One step of each level, read on a suffix of the sequence it walks. */
  lemma EmitMainsStep(cat: Catalog, part: Part, name: SetName, mainStats: seq<StatId>, subStats: seq<Substat>, m: nat)
    requires m < |mainStats|
    ensures EmitMains(cat, part, name, mainStats[m..], subStats)
            == (if Overlaps(mainStats[m], subStats) then [] else [MakeRelic(cat, part, name, mainStats[m], subStats)])
               + EmitMains(cat, part, name, mainStats[m + 1..], subStats)
  {
    assert mainStats[m..][1..] == mainStats[m + 1..];
  }

  lemma EmitSetsStep(cat: Catalog, part: Part, sets: seq<SetName>, mainStats: seq<StatId>, subStats: seq<Substat>, s: nat)
    requires s < |sets|
    ensures EmitSets(cat, part, sets[s..], mainStats, subStats)
            == EmitMains(cat, part, sets[s], mainStats, subStats) + EmitSets(cat, part, sets[s + 1..], mainStats, subStats)
  {
    assert sets[s..][1..] == sets[s + 1..];
  }

  lemma EmitUpgradesStep(cat: Catalog, part: Part, sets: seq<SetName>, mainStats: seq<StatId>,
                         upgrades: seq<seq<SubstatCount>>, u: nat)
    requires u < |upgrades|
    ensures EmitUpgrades(cat, part, sets, mainStats, upgrades[u..])
            == EmitSets(cat, part, sets, mainStats, Resolve(cat, upgrades[u]))
               + EmitUpgrades(cat, part, sets, mainStats, upgrades[u + 1..])
  {
    assert upgrades[u..][1..] == upgrades[u + 1..];
  }

  lemma EmitCombosStep(cat: Catalog, part: Part, sets: seq<SetName>, mainStats: seq<StatId>,
                       combos: seq<seq<StatId>>, c: nat)
    requires c < |combos|
    ensures EmitCombos(cat, part, sets, mainStats, combos[c..])
            == EmitUpgrades(cat, part, sets, mainStats, Dists(Wrap(combos[c]), UPGRADE_POINTS, 0))
               + EmitCombos(cat, part, sets, mainStats, combos[c + 1..])
  {
    assert combos[c..][1..] == combos[c + 1..];
  }

  /** The innermost loop, over the main stats, for one set. */
  method EmitForSet(cat: Catalog, part: Part, name: SetName, mainStats: seq<StatId>,
                    upgrade: seq<Substat>, store: RelicStore)
    modifies store
    ensures store.relics == old(store.relics) + EmitMains(cat, part, name, mainStats, upgrade)
  {
    assert mainStats[0..] == mainStats;
    for m := 0 to |mainStats|
      invariant store.relics + EmitMains(cat, part, name, mainStats[m..], upgrade)
                == old(store.relics) + EmitMains(cat, part, name, mainStats, upgrade)
    {
      EmitMainsStep(cat, part, name, mainStats, upgrade, m);
      var overlap := OverlappingStats(mainStats[m], upgrade);
      if overlap {
        continue;
      }
      ghost var before := store.relics;
      ghost var rest := EmitMains(cat, part, name, mainStats[m + 1..], upgrade);
      var relic := MakeRelic(cat, part, name, mainStats[m], upgrade);
      store.SetRelic(relic);
      assert store.relics + rest == before + ([relic] + rest);
    }
  }

  /** The loop over the sets, for one resolved upgrade. */
  method EmitForUpgrade(cat: Catalog, part: Part, sets: seq<SetName>, mainStats: seq<StatId>,
                        upgrade: seq<Substat>, store: RelicStore)
    modifies store
    ensures store.relics == old(store.relics) + EmitSets(cat, part, sets, mainStats, upgrade)
  {
    assert sets[0..] == sets;
    for s := 0 to |sets|
      invariant store.relics + EmitSets(cat, part, sets[s..], mainStats, upgrade)
                == old(store.relics) + EmitSets(cat, part, sets, mainStats, upgrade)
    {
      EmitSetsStep(cat, part, sets, mainStats, upgrade, s);
      ghost var before := store.relics;
      ghost var rest := EmitSets(cat, part, sets[s + 1..], mainStats, upgrade);
      EmitForSet(cat, part, sets[s], mainStats, upgrade, store);
      assert store.relics + rest == before + (EmitMains(cat, part, sets[s], mainStats, upgrade) + rest);
    }
  }

  /** The forEach over the upgrade distributions of one combination. */
  method EmitForUpgrades(cat: Catalog, part: Part, sets: seq<SetName>, mainStats: seq<StatId>,
                         allUpgrades: seq<seq<SubstatCount>>, store: RelicStore)
    modifies store
    ensures store.relics == old(store.relics) + EmitUpgrades(cat, part, sets, mainStats, allUpgrades)
  {
    assert allUpgrades[0..] == allUpgrades;
    for u := 0 to |allUpgrades|
      invariant store.relics + EmitUpgrades(cat, part, sets, mainStats, allUpgrades[u..])
                == old(store.relics) + EmitUpgrades(cat, part, sets, mainStats, allUpgrades)
    {
      EmitUpgradesStep(cat, part, sets, mainStats, allUpgrades, u);
      ghost var before := store.relics;
      ghost var rest := EmitUpgrades(cat, part, sets, mainStats, allUpgrades[u + 1..]);
      var upgrade := ResolveUpgrade(cat, allUpgrades[u]);
      assert upgrade == Resolve(cat, allUpgrades[u]);
      EmitForUpgrade(cat, part, sets, mainStats, upgrade, store);
      assert store.relics + rest == before + (EmitSets(cat, part, sets, mainStats, upgrade) + rest);
    }
  }

  /** The body of the forEach over one combination: its upgrade counts start at
      zero, every distribution of the upgrade points is generated, and each is
      emitted. */
  method EmitCombination(cat: Catalog, part: Part, sets: seq<SetName>, mainStats: seq<StatId>,
                         combination: seq<StatId>, store: RelicStore)
    modifies store
    ensures store.relics == old(store.relics)
                            + EmitUpgrades(cat, part, sets, mainStats, Dists(Wrap(combination), UPGRADE_POINTS, 0))
  {
    var subStats := new SubstatCount[|combination|](j requires 0 <= j < |combination| => SubstatCount(combination[j], 0));
    assert subStats[..] == Wrap(combination);
    var assigner := new UpgradeAssigner();
    assigner.Assign(subStats, UPGRADE_POINTS, 0);
    assert assigner.result == Dists(Wrap(combination), UPGRADE_POINTS, 0);
    EmitForUpgrades(cat, part, sets, mainStats, assigner.result, store);
  }

  /** The forEach over the substat combinations. */
  method EmitForCombos(cat: Catalog, part: Part, sets: seq<SetName>, mainStats: seq<StatId>,
                       subsets: seq<seq<StatId>>, store: RelicStore)
    modifies store
    ensures store.relics == old(store.relics) + EmitCombos(cat, part, sets, mainStats, subsets)
  {
    assert subsets[0..] == subsets;
    for c := 0 to |subsets|
      invariant store.relics + EmitCombos(cat, part, sets, mainStats, subsets[c..])
                == old(store.relics) + EmitCombos(cat, part, sets, mainStats, subsets)
    {
      EmitCombosStep(cat, part, sets, mainStats, subsets, c);
      ghost var before := store.relics;
      ghost var rest := EmitCombos(cat, part, sets, mainStats, subsets[c + 1..]);
      ghost var here := EmitUpgrades(cat, part, sets, mainStats, Dists(Wrap(subsets[c]), UPGRADE_POINTS, 0));
      EmitCombination(cat, part, sets, mainStats, subsets[c], store);
      assert store.relics + rest == before + (here + rest);
    }
  }

  /** onFinish: nothing reaches the store unless every check passes, and then
      exactly the relics of Generate do, in order. */
  method OnFinish(cat: Catalog, x: Form, store: RelicStore) returns (outcome: Outcome)
    modifies store
    ensures outcome == Validate(cat, x)
    ensures outcome.Fail? ==> store.relics == old(store.relics)
    ensures outcome.Pass? ==> FieldsFilled(x)
    ensures outcome.Pass? ==>
      store.relics == old(store.relics) + Generate(cat, x.part.value, x.sets.value, x.mainStats.value, x.subStats.value)
  {
    outcome := CheckForm(cat, x);
    if outcome.Fail? {
      return;
    }
    ValidateAccepts(cat, x);
    var generator := new SubsetGenerator<StatId>();
    generator.Generate(x.subStats.value, SUBSTATS_PER_RELIC, 0);
    assert generator.result == Combos(x.subStats.value, SUBSTATS_PER_RELIC, 0, []);
    EmitForCombos(cat, x.part.value, x.sets.value, x.mainStats.value, generator.result, store);
  }

  // ---- What every emitted relic satisfies ----

  /** The fixed fields, the part, a chosen set, a chosen main stat with its
      rounded value, and no substat equal to the main stat. */
  ghost predicate Shaped(cat: Catalog, part: Part, sets: seq<SetName>, mainStats: seq<StatId>, r: Relic)
  {
    r.enhance == MAX_ENHANCE && r.grade == GRADE && r.part == part &&
    r.relicSet in sets && r.main.stat in mainStats && r.main.value == MainValue(cat, r.main.stat) &&
    !Overlaps(r.main.stat, r.substats)
  }

  lemma {:induction false} EmitMainsShaped(cat: Catalog, part: Part, name: SetName, mainStats: seq<StatId>, subStats: seq<Substat>)
    ensures forall r :: r in EmitMains(cat, part, name, mainStats, subStats) ==>
      Shaped(cat, part, [name], mainStats, r) && r.substats == subStats
  {
    if mainStats != [] {
      EmitMainsShaped(cat, part, name, mainStats[1..], subStats);
      assert forall m :: m in mainStats[1..] ==> m in mainStats;
    }
  }

  lemma {:induction false} EmitSetsShaped(cat: Catalog, part: Part, sets: seq<SetName>, mainStats: seq<StatId>, subStats: seq<Substat>)
    ensures forall r :: r in EmitSets(cat, part, sets, mainStats, subStats) ==>
      Shaped(cat, part, sets, mainStats, r) && r.substats == subStats
  {
    if sets != [] {
      EmitMainsShaped(cat, part, sets[0], mainStats, subStats);
      EmitSetsShaped(cat, part, sets[1..], mainStats, subStats);
      assert forall n :: n in sets[1..] ==> n in sets;
    }
  }

  lemma {:induction false} EmitUpgradesShaped(cat: Catalog, part: Part, sets: seq<SetName>, mainStats: seq<StatId>,
                                              upgrades: seq<seq<SubstatCount>>)
    ensures forall r :: r in EmitUpgrades(cat, part, sets, mainStats, upgrades) ==>
      Shaped(cat, part, sets, mainStats, r) &&
      exists u :: u in upgrades && r.substats == Resolve(cat, u)
  {
    if upgrades != [] {
      EmitSetsShaped(cat, part, sets, mainStats, Resolve(cat, upgrades[0]));
      EmitUpgradesShaped(cat, part, sets, mainStats, upgrades[1..]);
      forall r | r in EmitUpgrades(cat, part, sets, mainStats, upgrades[1..])
        ensures exists u :: u in upgrades && r.substats == Resolve(cat, u)
      {
        var u: seq<SubstatCount> :| u in upgrades[1..] && r.substats == Resolve(cat, u);
        assert u in upgrades;
      }
      assert upgrades[0] in upgrades;
    }
  }

  lemma {:induction false} EmitCombosShaped(cat: Catalog, part: Part, sets: seq<SetName>, mainStats: seq<StatId>,
                                            combos: seq<seq<StatId>>)
    ensures forall r :: r in EmitCombos(cat, part, sets, mainStats, combos) ==>
      Shaped(cat, part, sets, mainStats, r) &&
      exists c, u :: c in combos && u in Dists(Wrap(c), UPGRADE_POINTS, 0) && r.substats == Resolve(cat, u)
  {
    if combos != [] {
      EmitUpgradesShaped(cat, part, sets, mainStats, Dists(Wrap(combos[0]), UPGRADE_POINTS, 0));
      EmitCombosShaped(cat, part, sets, mainStats, combos[1..]);
      forall r | r in EmitCombos(cat, part, sets, mainStats, combos[1..])
        ensures exists c, u :: c in combos && u in Dists(Wrap(c), UPGRADE_POINTS, 0) && r.substats == Resolve(cat, u)
      {
        var c: seq<StatId>, u: seq<SubstatCount> :| c in combos[1..] && u in Dists(Wrap(c), UPGRADE_POINTS, 0) && r.substats == Resolve(cat, u);
        assert c in combos;
      }
      assert combos[0] in combos;
    }
  }

  /** Every relic a run emits is fully enhanced, of the top grade and on the
      chosen part; its set and main stat were chosen, its main value is the
      rounded-down formula value, its four substats come from the chosen ones
      and none of them is the main stat, and their values resolve a
      distribution of exactly five upgrade points. */
  lemma GeneratedRelics(cat: Catalog, part: Part, sets: seq<SetName>, mainStats: seq<StatId>,
                        subStats: seq<StatId>, r: Relic)
    requires r in Generate(cat, part, sets, mainStats, subStats)
    ensures r.enhance == MAX_ENHANCE && r.grade == GRADE && r.part == part
    ensures r.relicSet in sets && r.main.stat in mainStats
    ensures r.main.value == MainValue(cat, r.main.stat)
    ensures |r.substats| == SUBSTATS_PER_RELIC
    ensures forall j :: 0 <= j < |r.substats| ==> r.substats[j].stat in subStats && r.substats[j].stat != r.main.stat
    ensures exists u :: Sum(u) == UPGRADE_POINTS && Resolve(cat, u) == r.substats
  {
    var combos := Combos(subStats, SUBSTATS_PER_RELIC, 0, []);
    EmitCombosShaped(cat, part, sets, mainStats, combos);
    var c: seq<StatId>, u: seq<SubstatCount> :| c in combos && u in Dists(Wrap(c), UPGRADE_POINTS, 0) && r.substats == Resolve(cat, u);
    SubsetsDrawFrom(subStats, SUBSTATS_PER_RELIC, c);
    DistributionsExactlyOnce(c);
    assert IsDistribution(u, c);
    forall j | 0 <= j < |r.substats| ensures r.substats[j].stat in subStats && r.substats[j].stat != r.main.stat {
      assert r.substats[j].stat == c[j];
    }
  }

  // ---- How many relics a run emits ----

  lemma MulStep(n: nat, k: nat)
    requires n > 0
    ensures n * k == (n - 1) * k + k
  {
  }

  lemma {:induction false} EmitMainsCount(cat: Catalog, part: Part, name: SetName, mainStats: seq<StatId>, subStats: seq<Substat>)
    requires forall m :: m in mainStats ==> !Overlaps(m, subStats)
    ensures |EmitMains(cat, part, name, mainStats, subStats)| == |mainStats|
  {
    if mainStats != [] {
      assert mainStats[0] in mainStats;
      assert forall m :: m in mainStats[1..] ==> m in mainStats;
      EmitMainsCount(cat, part, name, mainStats[1..], subStats);
    }
  }

  lemma {:induction false} EmitSetsCount(cat: Catalog, part: Part, sets: seq<SetName>, mainStats: seq<StatId>, subStats: seq<Substat>)
    requires forall m :: m in mainStats ==> !Overlaps(m, subStats)
    ensures |EmitSets(cat, part, sets, mainStats, subStats)| == |sets| * |mainStats|
  {
    if sets != [] {
      EmitMainsCount(cat, part, sets[0], mainStats, subStats);
      EmitSetsCount(cat, part, sets[1..], mainStats, subStats);
      MulStep(|sets|, |mainStats|);
    }
  }

  lemma {:induction false} EmitUpgradesCount(cat: Catalog, part: Part, sets: seq<SetName>, mainStats: seq<StatId>,
                                             upgrades: seq<seq<SubstatCount>>)
    requires forall u, m :: u in upgrades && m in mainStats ==> !Overlaps(m, Resolve(cat, u))
    ensures |EmitUpgrades(cat, part, sets, mainStats, upgrades)| == |upgrades| * (|sets| * |mainStats|)
  {
    if upgrades != [] {
      assert upgrades[0] in upgrades;
      assert forall u :: u in upgrades[1..] ==> u in upgrades;
      EmitSetsCount(cat, part, sets, mainStats, Resolve(cat, upgrades[0]));
      EmitUpgradesCount(cat, part, sets, mainStats, upgrades[1..]);
      MulStep(|upgrades|, |sets| * |mainStats|);
    }
  }

  /** A combination that avoids every main stat never overlaps one, whichever
      distribution is resolved on it. */
  lemma CombinationAvoids(cat: Catalog, mainStats: seq<StatId>, c: seq<StatId>)
    requires forall m :: m in mainStats ==> m !in c
    ensures forall u, m :: u in Dists(Wrap(c), UPGRADE_POINTS, 0) && m in mainStats ==> !Overlaps(m, Resolve(cat, u))
  {
    DistributionsExactlyOnce(c);
    forall u, m | u in Dists(Wrap(c), UPGRADE_POINTS, 0) && m in mainStats
      ensures !Overlaps(m, Resolve(cat, u))
    {
      assert IsDistribution(u, c);
      forall j | 0 <= j < |Resolve(cat, u)| ensures Resolve(cat, u)[j].stat != m {
        assert Resolve(cat, u)[j].stat == c[j];
      }
    }
  }

  /** One combination of four substats that avoids every main stat yields 56
      relics per set and main stat. */
  lemma EmitCombinationCount(cat: Catalog, part: Part, sets: seq<SetName>, mainStats: seq<StatId>, c: seq<StatId>)
    requires |c| == SUBSTATS_PER_RELIC
    requires forall m :: m in mainStats ==> m !in c
    ensures |EmitUpgrades(cat, part, sets, mainStats, Dists(Wrap(c), UPGRADE_POINTS, 0))| == 56 * (|sets| * |mainStats|)
  {
    CombinationAvoids(cat, mainStats, c);
    FiftySixDistributions(c);
    EmitUpgradesCount(cat, part, sets, mainStats, Dists(Wrap(c), UPGRADE_POINTS, 0));
  }

  lemma {:induction false} EmitCombosCount(cat: Catalog, part: Part, sets: seq<SetName>, mainStats: seq<StatId>,
                                           combos: seq<seq<StatId>>)
    requires forall c :: c in combos ==> |c| == SUBSTATS_PER_RELIC
    requires forall c, m :: c in combos && m in mainStats ==> m !in c
    ensures |EmitCombos(cat, part, sets, mainStats, combos)| == |combos| * (56 * (|sets| * |mainStats|))
  {
    if combos != [] {
      assert combos[0] in combos;
      assert forall d :: d in combos[1..] ==> d in combos;
      EmitCombinationCount(cat, part, sets, mainStats, combos[0]);
      EmitCombosCount(cat, part, sets, mainStats, combos[1..]);
      MulStep(|combos|, 56 * (|sets| * |mainStats|));
    }
  }

  /** When no chosen main stat is among the chosen substats, nothing is
      filtered out: a run emits C(n, 4) * 56 relics per set and main stat, for
      n chosen substats. */
  lemma GenerateCount(cat: Catalog, part: Part, sets: seq<SetName>, mainStats: seq<StatId>, subStats: seq<StatId>)
    requires forall m :: m in mainStats ==> m !in subStats
    ensures |Generate(cat, part, sets, mainStats, subStats)|
            == Binom(|subStats|, SUBSTATS_PER_RELIC) * (56 * (|sets| * |mainStats|))
  {
    var combos := Combos(subStats, SUBSTATS_PER_RELIC, 0, []);
    SubsetsCount(subStats, SUBSTATS_PER_RELIC);
    forall c | c in combos ensures |c| == SUBSTATS_PER_RELIC && forall m :: m in mainStats ==> m !in c {
      SubsetsDrawFrom(subStats, SUBSTATS_PER_RELIC, c);
    }
    EmitCombosCount(cat, part, sets, mainStats, combos);
  }

  // ---- Every wanted relic is emitted ----

  lemma {:induction false} EmitMainsHas(cat: Catalog, part: Part, name: SetName, mainStats: seq<StatId>,
                                        subStats: seq<Substat>, m: StatId)
    requires m in mainStats && !Overlaps(m, subStats)
    ensures MakeRelic(cat, part, name, m, subStats) in EmitMains(cat, part, name, mainStats, subStats)
  {
    if mainStats[0] != m {
      assert m in mainStats[1..];
      EmitMainsHas(cat, part, name, mainStats[1..], subStats, m);
    }
  }

  lemma {:induction false} EmitSetsHas(cat: Catalog, part: Part, sets: seq<SetName>, mainStats: seq<StatId>,
                                       subStats: seq<Substat>, s: SetName, m: StatId)
    requires s in sets && m in mainStats && !Overlaps(m, subStats)
    ensures MakeRelic(cat, part, s, m, subStats) in EmitSets(cat, part, sets, mainStats, subStats)
  {
    if sets[0] == s {
      EmitMainsHas(cat, part, s, mainStats, subStats, m);
    } else {
      assert s in sets[1..];
      EmitSetsHas(cat, part, sets[1..], mainStats, subStats, s, m);
    }
  }

  lemma {:induction false} EmitUpgradesHas(cat: Catalog, part: Part, sets: seq<SetName>, mainStats: seq<StatId>,
                                           upgrades: seq<seq<SubstatCount>>, u: seq<SubstatCount>, s: SetName, m: StatId)
    requires u in upgrades && s in sets && m in mainStats && !Overlaps(m, Resolve(cat, u))
    ensures MakeRelic(cat, part, s, m, Resolve(cat, u)) in EmitUpgrades(cat, part, sets, mainStats, upgrades)
  {
    if upgrades[0] == u {
      EmitSetsHas(cat, part, sets, mainStats, Resolve(cat, u), s, m);
    } else {
      assert u in upgrades[1..];
      EmitUpgradesHas(cat, part, sets, mainStats, upgrades[1..], u, s, m);
    }
  }

  lemma {:induction false} EmitCombosHas(cat: Catalog, part: Part, sets: seq<SetName>, mainStats: seq<StatId>,
                                         combos: seq<seq<StatId>>, c: seq<StatId>, u: seq<SubstatCount>, s: SetName, m: StatId)
    requires c in combos && u in Dists(Wrap(c), UPGRADE_POINTS, 0)
    requires s in sets && m in mainStats && !Overlaps(m, Resolve(cat, u))
    ensures MakeRelic(cat, part, s, m, Resolve(cat, u)) in EmitCombos(cat, part, sets, mainStats, combos)
  {
    if combos[0] == c {
      EmitUpgradesHas(cat, part, sets, mainStats, Dists(Wrap(c), UPGRADE_POINTS, 0), u, s, m);
    } else {
      assert c in combos[1..];
      EmitCombosHas(cat, part, sets, mainStats, combos[1..], c, u, s, m);
    }
  }

  /** The converse of GeneratedRelics: for every combination of four chosen
      substats, every distribution of the five upgrade points over it, every
      chosen set and every chosen main stat outside the combination, the
      corresponding relic is emitted. */
  lemma GenerateComplete(cat: Catalog, part: Part, sets: seq<SetName>, mainStats: seq<StatId>, subStats: seq<StatId>,
                         c: seq<StatId>, u: seq<SubstatCount>, s: SetName, m: StatId)
    requires c in Combos(subStats, SUBSTATS_PER_RELIC, 0, [])
    requires u in Dists(Wrap(c), UPGRADE_POINTS, 0)
    requires s in sets && m in mainStats && m !in c
    ensures MakeRelic(cat, part, s, m, Resolve(cat, u)) in Generate(cat, part, sets, mainStats, subStats)
  {
    CombinationAvoids(cat, [m], c);
    assert m in [m];
    EmitCombosHas(cat, part, sets, mainStats, Combos(subStats, SUBSTATS_PER_RELIC, 0, []), c, u, s, m);
  }

  /** A relic whose main stat is one of its own substats is never emitted: the
      overlap filter drops exactly those. */
  lemma GenerateSkipsOverlap(cat: Catalog, part: Part, sets: seq<SetName>, mainStats: seq<StatId>, subStats: seq<StatId>,
                             s: SetName, m: StatId, resolved: seq<Substat>)
    requires Overlaps(m, resolved)
    ensures MakeRelic(cat, part, s, m, resolved) !in Generate(cat, part, sets, mainStats, subStats)
  {
    var r := MakeRelic(cat, part, s, m, resolved);
    if r in Generate(cat, part, sets, mainStats, subStats) {
      GeneratedRelics(cat, part, sets, mainStats, subStats, r);
      assert false;
    }
  }
}
