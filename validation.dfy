/** The fail-fast checks the generator runs on the submitted form before it
    enumerates anything. */
module Validation {
  import opened Stats

  /** The submitted form; a field the user left empty is None. */
  datatype Form = Form(
    part: Option<Part>,
    sets: Option<seq<SetName>>,
    mainStats: Option<seq<StatId>>,
    subStats: Option<seq<StatId>>)

  /** One constructor per error message the generator can show. */
  datatype FormError =
    | PartMissing
    | SetMissing
    | NoSetChosen
    | MainStatMissing
    | NoMainStatChosen
    | SubstatsMissing
    | TooFewSubstats
    | NotOrnamentSet(name: SetName)
    | NotRelicSet(name: SetName)
    | TooFewAvailableSubstats(mainStat: StatId)

  datatype Outcome = Pass | Fail(error: FormError)

  /** The number of chosen substats that differ from main stat m. */
  function Available(subStats: seq<StatId>, m: StatId): nat
  {
    if subStats == [] then 0
    else (if subStats[0] != m then 1 else 0) + Available(subStats[1..], m)
  }

  /** The error the legality check raises for one set on the given part, if any:
      relic sets are refused on the planar parts first, then ornament sets on the
      four other parts. */
  function SetError(cat: Catalog, part: Part, name: SetName): Option<FormError>
  {
    if name in cat.relicSets && IsPlanar(part) then Some(NotOrnamentSet(name))
    else if name in cat.ornamentSets && !IsPlanar(part) then Some(NotRelicSet(name))
    else None
  }

  function FirstSetError(cat: Catalog, part: Part, sets: seq<SetName>): Outcome
  {
    if sets == [] then Pass
    else if SetError(cat, part, sets[0]).Some? then Fail(SetError(cat, part, sets[0]).value)
    else FirstSetError(cat, part, sets[1..])
  }

  function FirstMainStatError(subStats: seq<StatId>, mainStats: seq<StatId>): Outcome
  {
    if mainStats == [] then Pass
    else if Available(subStats, mainStats[0]) < SUBSTATS_PER_RELIC then Fail(TooFewAvailableSubstats(mainStats[0]))
    else FirstMainStatError(subStats, mainStats[1..])
  }

  /** The checks, in the order the generator runs them. */
  function Validate(cat: Catalog, x: Form): Outcome
  {
    if x.part.None? then Fail(PartMissing)
    else if x.sets.None? then Fail(SetMissing)
    else if |x.sets.value| < 1 then Fail(NoSetChosen)
    else if x.mainStats.None? then Fail(MainStatMissing)
    else if |x.mainStats.value| < 1 then Fail(NoMainStatChosen)
    else if x.subStats.None? then Fail(SubstatsMissing)
    else if |x.subStats.value| < SUBSTATS_PER_RELIC then Fail(TooFewSubstats)
    else if FirstSetError(cat, x.part.value, x.sets.value).Fail? then FirstSetError(cat, x.part.value, x.sets.value)
    else FirstMainStatError(x.subStats.value, x.mainStats.value)
  }

  /** The validation part of onFinish, with its two loops. */
  method CheckForm(cat: Catalog, x: Form) returns (outcome: Outcome)
    ensures outcome == Validate(cat, x)
  {
    if x.part.None? {
      return Fail(PartMissing);
    }
    if x.sets.None? {
      return Fail(SetMissing);
    }
    if |x.sets.value| < 1 {
      return Fail(NoSetChosen);
    }
    if x.mainStats.None? {
      return Fail(MainStatMissing);
    }
    if |x.mainStats.value| < 1 {
      return Fail(NoMainStatChosen);
    }
    if x.subStats.None? {
      return Fail(SubstatsMissing);
    }
    if |x.subStats.value| < 4 {
      return Fail(TooFewSubstats);
    }
    var part, sets, mainStats, subStats := x.part.value, x.sets.value, x.mainStats.value, x.subStats.value;
    for i := 0 to |sets|
      invariant FirstSetError(cat, part, sets[i..]) == FirstSetError(cat, part, sets)
    {
      assert sets[i..][1..] == sets[i + 1..];
      var name := sets[i];
      if name in cat.relicSets && (part == PlanarSphere || part == LinkRope) {
        return Fail(NotOrnamentSet(name));
      }
      if name in cat.ornamentSets && (part == Head || part == Hands || part == Body || part == Feet) {
        return Fail(NotRelicSet(name));
      }
    }
    for i := 0 to |mainStats|
      invariant FirstMainStatError(subStats, mainStats[i..]) == FirstMainStatError(subStats, mainStats)
    {
      assert mainStats[i..][1..] == mainStats[i + 1..];
      var subLength := Available(subStats, mainStats[i]);
      if subLength < 4 {
        return Fail(TooFewAvailableSubstats(mainStats[i]));
      }
    }
    return Pass;
  }

  // ---- What a passing form guarantees ----

  /** Relic-family sets belong on the four non-planar parts, ornament sets on the planar ones. */
  predicate SetAllowed(cat: Catalog, part: Part, name: SetName)
  {
    (name in cat.relicSets ==> !IsPlanar(part)) && (name in cat.ornamentSets ==> IsPlanar(part))
  }

  predicate FieldsFilled(x: Form)
  {
    x.part.Some? && x.sets.Some? && |x.sets.value| >= 1 &&
    x.mainStats.Some? && |x.mainStats.value| >= 1 &&
    x.subStats.Some? && |x.subStats.value| >= SUBSTATS_PER_RELIC
  }

  ghost predicate WellFormed(cat: Catalog, x: Form)
  {
    FieldsFilled(x) &&
    (forall name :: name in x.sets.value ==> SetAllowed(cat, x.part.value, name)) &&
    (forall m :: m in x.mainStats.value ==> Available(x.subStats.value, m) >= SUBSTATS_PER_RELIC)
  }

  lemma {:induction false} FirstSetErrorPass(cat: Catalog, part: Part, sets: seq<SetName>)
    ensures FirstSetError(cat, part, sets) == Pass <==> forall name :: name in sets ==> SetAllowed(cat, part, name)
  {
    if sets != [] {
      FirstSetErrorPass(cat, part, sets[1..]);
      assert SetError(cat, part, sets[0]).None? <==> SetAllowed(cat, part, sets[0]);
      assert forall name :: name in sets <==> name == sets[0] || name in sets[1..];
      if FirstSetError(cat, part, sets) == Pass {
        forall name | name in sets ensures SetAllowed(cat, part, name) {
          if name != sets[0] {
            assert name in sets[1..];
          }
        }
      }
    }
  }

  lemma {:induction false} FirstMainStatErrorPass(subStats: seq<StatId>, mainStats: seq<StatId>)
    ensures FirstMainStatError(subStats, mainStats) == Pass <==>
      forall m :: m in mainStats ==> Available(subStats, m) >= SUBSTATS_PER_RELIC
  {
    if mainStats != [] {
      FirstMainStatErrorPass(subStats, mainStats[1..]);
      assert forall m :: m in mainStats <==> m == mainStats[0] || m in mainStats[1..];
      assert mainStats[0] in mainStats;
      if FirstMainStatError(subStats, mainStats) == Pass {
        forall m | m in mainStats ensures Available(subStats, m) >= SUBSTATS_PER_RELIC {
          if m != mainStats[0] {
            assert m in mainStats[1..];
          }
        }
      }
    }
  }

  /** The form passes exactly when it is filled in, every set fits the part, and
      every main stat leaves at least four other substats. */
  lemma ValidateAccepts(cat: Catalog, x: Form)
    ensures Validate(cat, x) == Pass <==> WellFormed(cat, x)
  {
    if FieldsFilled(x) {
      FirstSetErrorPass(cat, x.part.value, x.sets.value);
      FirstMainStatErrorPass(x.subStats.value, x.mainStats.value);
    }
  }

  // ---- What a failing form's error says ----

  /** The set at position j is the first one that does not fit the part. */
  ghost predicate FirstBadSet(cat: Catalog, part: Part, sets: seq<SetName>, j: int)
  {
    0 <= j < |sets| && !SetAllowed(cat, part, sets[j]) &&
    forall i :: 0 <= i < j ==> SetAllowed(cat, part, sets[i])
  }

  /** The main stat at position j is the first one with fewer than four other substats. */
  ghost predicate FirstShortMainStat(subStats: seq<StatId>, mainStats: seq<StatId>, j: int)
  {
    0 <= j < |mainStats| && Available(subStats, mainStats[j]) < SUBSTATS_PER_RELIC &&
    forall i :: 0 <= i < j ==> Available(subStats, mainStats[i]) >= SUBSTATS_PER_RELIC
  }

  /** e names a check that fails on x, and every check run before it passes. */
  ghost predicate Explains(cat: Catalog, x: Form, e: FormError)
  {
    match e
    case PartMissing => x.part.None?
    case SetMissing => x.part.Some? && x.sets.None?
    case NoSetChosen => x.part.Some? && x.sets == Some([])
    case MainStatMissing =>
      x.part.Some? && x.sets.Some? && |x.sets.value| >= 1 && x.mainStats.None?
    case NoMainStatChosen =>
      x.part.Some? && x.sets.Some? && |x.sets.value| >= 1 && x.mainStats == Some([])
    case SubstatsMissing =>
      x.part.Some? && x.sets.Some? && |x.sets.value| >= 1 &&
      x.mainStats.Some? && |x.mainStats.value| >= 1 && x.subStats.None?
    case TooFewSubstats =>
      x.part.Some? && x.sets.Some? && |x.sets.value| >= 1 &&
      x.mainStats.Some? && |x.mainStats.value| >= 1 &&
      x.subStats.Some? && |x.subStats.value| < SUBSTATS_PER_RELIC
    case NotOrnamentSet(name) =>
      FieldsFilled(x) && name in cat.relicSets && IsPlanar(x.part.value) &&
      exists j :: FirstBadSet(cat, x.part.value, x.sets.value, j) && x.sets.value[j] == name
    case NotRelicSet(name) =>
      FieldsFilled(x) && name in cat.ornamentSets && !IsPlanar(x.part.value) &&
      exists j :: FirstBadSet(cat, x.part.value, x.sets.value, j) && x.sets.value[j] == name
    case TooFewAvailableSubstats(m) =>
      FieldsFilled(x) &&
      (forall name :: name in x.sets.value ==> SetAllowed(cat, x.part.value, name)) &&
      exists j :: FirstShortMainStat(x.subStats.value, x.mainStats.value, j) && x.mainStats.value[j] == m
  }

  lemma {:induction false} FirstSetErrorFail(cat: Catalog, part: Part, sets: seq<SetName>)
    requires FirstSetError(cat, part, sets).Fail?
    ensures FirstSetError(cat, part, sets).error.NotOrnamentSet? || FirstSetError(cat, part, sets).error.NotRelicSet?
    ensures exists j :: FirstBadSet(cat, part, sets, j) && sets[j] == FirstSetError(cat, part, sets).error.name
    ensures FirstSetError(cat, part, sets).error.NotOrnamentSet? ==>
      FirstSetError(cat, part, sets).error.name in cat.relicSets && IsPlanar(part)
    ensures FirstSetError(cat, part, sets).error.NotRelicSet? ==>
      FirstSetError(cat, part, sets).error.name in cat.ornamentSets && !IsPlanar(part)
  {
    if SetError(cat, part, sets[0]).Some? {
      assert FirstBadSet(cat, part, sets, 0);
    } else {
      var rest := sets[1..];
      FirstSetErrorFail(cat, part, rest);
      var j :| FirstBadSet(cat, part, rest, j) && rest[j] == FirstSetError(cat, part, rest).error.name;
      assert FirstBadSet(cat, part, sets, j + 1) by {
        forall i | 0 <= i < j + 1 ensures SetAllowed(cat, part, sets[i]) {
          if i > 0 {
            assert sets[i] == rest[i - 1];
          }
        }
      }
    }
  }

  lemma {:induction false} FirstMainStatErrorFail(subStats: seq<StatId>, mainStats: seq<StatId>)
    requires FirstMainStatError(subStats, mainStats).Fail?
    ensures FirstMainStatError(subStats, mainStats).error.TooFewAvailableSubstats?
    ensures exists j :: (FirstShortMainStat(subStats, mainStats, j) &&
                         mainStats[j] == FirstMainStatError(subStats, mainStats).error.mainStat)
  {
    if Available(subStats, mainStats[0]) < SUBSTATS_PER_RELIC {
      assert FirstShortMainStat(subStats, mainStats, 0);
    } else {
      var rest := mainStats[1..];
      FirstMainStatErrorFail(subStats, rest);
      var j :| FirstShortMainStat(subStats, rest, j) &&
        rest[j] == FirstMainStatError(subStats, rest).error.mainStat;
      assert FirstShortMainStat(subStats, mainStats, j + 1) by {
        forall i | 0 <= i < j + 1 ensures Available(subStats, mainStats[i]) >= SUBSTATS_PER_RELIC {
          if i > 0 {
            assert mainStats[i] == rest[i - 1];
          }
        }
      }
    }
  }

  /** A rejected form is rejected for the first check, in the generator's order,
      that it fails. */
  lemma ValidateRejects(cat: Catalog, x: Form)
    requires Validate(cat, x).Fail?
    ensures Explains(cat, x, Validate(cat, x).error)
  {
    if FieldsFilled(x) {
      var part, sets := x.part.value, x.sets.value;
      if FirstSetError(cat, part, sets).Fail? {
        FirstSetErrorFail(cat, part, sets);
      } else {
        FirstSetErrorPass(cat, part, sets);
        FirstMainStatErrorFail(x.subStats.value, x.mainStats.value);
      }
    }
  }
}
