/** The vocabulary of the brute-force relic generator: stat and set identifiers,
    relic parts, the stat catalog (an uninterpreted parameter standing for the
    constant tables the generator reads) and the relic record it emits. */
module Stats {

  type StatId = string
  type SetName = string

  datatype Option<T> = None | Some(value: T)

  datatype Part = Head | Hands | Body | Feet | PlanarSphere | LinkRope

  /** The two planar parts carry ornament sets; the other four carry relic sets. */
  predicate IsPlanar(p: Part)
  {
    p == PlanarSphere || p == LinkRope
  }

  /** The constant tables: which stats are flat, the SPD identifier, the per-grade
      base and per-level increment of each main stat, the per-grade high roll of
      each substat, and the names of the relic and ornament set families. */
  datatype Catalog = Catalog(
    isFlat: StatId -> bool,
    spd: StatId,
    mainBase: (StatId, nat) -> real,
    mainIncrement: (StatId, nat) -> real,
    subHigh: (StatId, nat) -> real,
    relicSets: seq<SetName>,
    ornamentSets: seq<SetName>)

  /** Every generated relic is of the top grade and fully enhanced. */
  const GRADE: nat := 5
  const MAX_ENHANCE: nat := 15
  /** A relic has four substats, which share five upgrade points. */
  const SUBSTATS_PER_RELIC: nat := 4
  const UPGRADE_POINTS: nat := 5

  datatype MainStat = MainStat(stat: StatId, value: real)
  datatype Substat = Substat(stat: StatId, value: real)
  datatype Relic = Relic(
    enhance: nat,
    grade: nat,
    part: Part,
    relicSet: SetName,
    main: MainStat,
    substats: seq<Substat>)

  /** A substat starts with one high roll and gains one more per upgrade point. */
  function SubstatValue(cat: Catalog, stat: StatId, count: nat): real
  {
    cat.subHigh(stat, GRADE) * ((1 + count) as real)
  }

  lemma SubstatValueEnds(cat: Catalog, stat: StatId)
    ensures SubstatValue(cat, stat, 0) == cat.subHigh(stat, GRADE)
    ensures SubstatValue(cat, stat, UPGRADE_POINTS) == 6.0 * cat.subHigh(stat, GRADE)
  {
  }

  lemma SubstatValueMonotone(cat: Catalog, stat: StatId, a: nat, b: nat)
    requires a <= b
    requires cat.subHigh(stat, GRADE) >= 0.0
    ensures SubstatValue(cat, stat, a) <= SubstatValue(cat, stat, b)
  {
    var h := cat.subHigh(stat, GRADE);
    assert SubstatValue(cat, stat, b) - SubstatValue(cat, stat, a) == h * ((b - a) as real);
  }

  /** The unrounded main value of a fully enhanced top-grade relic. */
  function MainRaw(cat: Catalog, stat: StatId): real
  {
    cat.mainBase(stat, GRADE) + cat.mainIncrement(stat, GRADE) * (MAX_ENHANCE as real)
  }

  /** The main value the generator stores: the raw value rounded down to an integer. */
  function MainValue(cat: Catalog, stat: StatId): (v: real)
    ensures v == v.Floor as real
    ensures v <= MainRaw(cat, stat) < v + 1.0
  {
    MainRaw(cat, stat).Floor as real
  }
}
