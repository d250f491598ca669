/** renderStat, renderMainStat and renderSubstat: the display rounding of stat values. */
module Render {
  import opened Stats

  datatype Shown = Shown(stat: StatId, value: real)

  /** Flat stats other than SPD are shown as whole numbers. */
  predicate ShownWhole(cat: Catalog, stat: StatId)
  {
    cat.isFlat(stat) && stat != cat.spd
  }

  predicate IsWhole(x: real)
  {
    x == x.Floor as real
  }

  /** Whole stats are rounded down to an integer; all others are rounded down to
      one decimal place. */
  function RenderStat(cat: Catalog, stat: StatId, value: real): (r: Shown)
    ensures r.stat == stat
    ensures ShownWhole(cat, stat) ==> IsWhole(r.value) && r.value <= value < r.value + 1.0
    ensures !ShownWhole(cat, stat) ==> IsWhole(r.value * 10.0) && r.value <= value < r.value + 0.1
  {
    if ShownWhole(cat, stat) then Shown(stat, value.Floor as real)
    else Shown(stat, (value * 10.0).Floor as real / 10.0)
  }

  /** Rendering an already rendered value changes nothing. */
  lemma RenderIdempotent(cat: Catalog, stat: StatId, value: real)
    ensures RenderStat(cat, stat, RenderStat(cat, stat, value).value) == RenderStat(cat, stat, value)
  {
    var v := RenderStat(cat, stat, value).value;
    if !ShownWhole(cat, stat) {
      var f := (value * 10.0).Floor;
      assert v * 10.0 == f as real;
      assert (v * 10.0).Floor == f;
    }
  }

  /** Nothing is shown for a relic whose main stat is empty. */
  function RenderMainStat(cat: Catalog, relic: Relic): (r: Option<Shown>)
    ensures r.None? <==> relic.main.stat == ""
    ensures r.Some? ==> r.value == RenderStat(cat, relic.main.stat, relic.main.value)
  {
    if relic.main.stat == "" then None
    else Some(RenderStat(cat, relic.main.stat, relic.main.value))
  }

  /** Nothing is shown for a substat position that does not exist or holds no stat. */
  function RenderSubstat(cat: Catalog, relic: Relic, index: int): (r: Option<Shown>)
    ensures r.None? <==> !(0 <= index < |relic.substats|) || relic.substats[index].stat == ""
    ensures r.Some? ==> r.value == RenderStat(cat, relic.substats[index].stat, relic.substats[index].value)
  {
    if !(0 <= index < |relic.substats|) || relic.substats[index].stat == "" then None
    else Some(RenderStat(cat, relic.substats[index].stat, relic.substats[index].value))
  }
}
