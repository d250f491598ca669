# Brute-force relic generator: a Dafny model

This models the brute-force relic generator in the relic optimizer's modal
dialog. The user picks:

- a relic part;
- one or more sets;
- one or more main stats;
- at least four candidate substats.

The generator first runs a fixed sequence of checks on the form. It then
builds every relic those choices allow, and hands each one to the relic
store. A relic is built from:

- every combination of four of the chosen substats;
- every way of spreading five upgrade points over those four;
- every chosen set;
- every chosen main stat that is not one of the relic's substats.

The model also covers three display rounding helpers for relic stat values
(`renderStat`, `renderMainStat` and `renderSubstat`). The same file defines
them but never calls them.

Modules (one file each):

- `Stats` (`stats.dfy`) has the vocabulary: stat and set identifiers, the six relic parts and the `Relic` record. It also has the constant tables, as a `Catalog` parameter. Two value formulas live here: a substat's value from its upgrade count, and a main stat's value at grade 5 and level 15.
- `Combinations` (`combinations.dfy`) models `generateSubsets`. It is a class `SubsetGenerator` whose fields are the working subset `current` and the output list `result`. Its recursive `Generate` method pushes, recurses and pops. The method is proved against the function `Combos`. The lemmas about `Combos` cover the count C(n, k), index order, lexicographic order, completeness and membership.
- `Upgrades` (`upgrades.dfy`) models `assignUpgrades`. It is a class `UpgradeAssigner` whose `Assign` method increments, recurses and decrements the counts in place, in an `array`. The method is proved against the function `Dists`. The lemmas about `Dists` show the following:
  - it keeps the stat order;
  - each distribution's counts add up to five;
  - every distribution is produced exactly once;
  - there are 56 of them.
- `Render` (`render.dfy`) models the rounding helpers `renderStat`, `renderMainStat` and `renderSubstat`. They are defined in the source file but not used there.
- `Validation` (`validation.dfy`) models the checks at the start of `onFinish`. The function `Validate` states them in order. `CheckForm` is the method with the source's two loops.
- `Generator` (`generator.dfy`) models `overlappingStats`, the cross product in `onFinish` and the relic store. `Generate` is the list of relics a valid form produces, in the order they are produced. `OnFinish` is the method with the nested loops.

A `RelicStore` class stands for the relic store. Its `relics` field is the list of relics handed to it so far.

## Model

| member | source | states |
|---|---|---|
| Stats.SubstatValueEnds | src/components/BruteForceModal.jsx:149 | with no upgrades a substat is worth one high roll; with all five it is worth six |
| Stats.SubstatValueMonotone | src/components/BruteForceModal.jsx:149 | for a non-negative high roll, more upgrade points never give a lower substat value |
| Stats.MainValue | src/components/BruteForceModal.jsx:167 | a main stat's value is a whole number, at most base + 15 * increment and within 1 of it |
| Combinations.SubsetGenerator.Generate | src/components/BruteForceModal.jsx:335-346 | appends exactly the combinations `Combos` describes to `result`; `current` is restored to what it was on entry |
| Combinations.CombosCount | src/components/BruteForceModal.jsx:335-346 | from a partial subset `cur`, starting at `start`, C(\|arr\| - start, k - \|cur\|) subsets are produced |
| Combinations.SubsetsCount | src/components/BruteForceModal.jsx:335-346 | a call from the top produces C(n, k) subsets, and none when n < k |
| Combinations.SubsetsAreIndexSelections | src/components/BruteForceModal.jsx:341-343 | each subset picks the elements at k strictly increasing positions of `arr` |
| Combinations.SubsetsInLexOrder | src/components/BruteForceModal.jsx:341-345 | subsets come out in strictly increasing lexicographic order of their positions, so no two are the same selection |
| Combinations.SubsetsComplete | src/components/BruteForceModal.jsx:335-346 | every strictly increasing choice of k positions is produced |
| Combinations.SubsetsDrawFrom | src/components/BruteForceModal.jsx:335-346 | each subset has k elements, all taken from `arr` |
| Combinations.BinomBelow | src/components/BruteForceModal.jsx:336-341 | C(n, k) is 0 when n < k, so too short an input yields no subset |
| Upgrades.UpgradeAssigner.Assign | src/components/BruteForceModal.jsx:348-369 | appends exactly the distributions `Dists` describes to `result`; the array of counts is restored to what it was on entry |
| Upgrades.DistsShape | src/components/BruteForceModal.jsx:349-359 | every distribution keeps each position's stat, only raises counts from `point` on, and adds exactly `remaining` points |
| Upgrades.DistsDistinct | src/components/BruteForceModal.jsx:350-358 | no distribution is produced twice |
| Upgrades.DistsComplete | src/components/BruteForceModal.jsx:348-369 | every way of adding `remaining` points at positions from `point` on is produced |
| Upgrades.DistsCount | src/components/BruteForceModal.jsx:348-369 | the number of distributions is the multiset coefficient of the free positions and the remaining points |
| Upgrades.MultiChooseBinom | src/components/BruteForceModal.jsx:348-369 | that multiset coefficient equals C(m + r - 1, r) |
| Upgrades.DistributionsExactlyOnce | src/components/BruteForceModal.jsx:348-369 | from zero counts, the output is exactly the distributions of five points over the combination, in its stat order, each with counts in 0..5, each exactly once |
| Upgrades.FiftySixDistributions | src/components/BruteForceModal.jsx:145 | four substats and five points give 56 distributions, which is C(8, 3) |
| Upgrades.SumBump | src/components/BruteForceModal.jsx:356 | one increment adds one point to the total |
| Render.RenderStat | src/components/BruteForceModal.jsx:52-64 | flat stats other than SPD are shown rounded down to a whole number; all others are shown rounded down to one decimal; the shown value is within one unit (or 0.1) below the true value |
| Render.RenderIdempotent | src/components/BruteForceModal.jsx:52-64 | rendering a rendered value changes nothing |
| Render.RenderMainStat | src/components/BruteForceModal.jsx:33-40 | nothing is shown exactly when the main stat is empty; otherwise it is the rendered main stat |
| Render.RenderSubstat | src/components/BruteForceModal.jsx:42-50 | nothing is shown exactly when the index has no substat or its stat is empty; otherwise it is the rendered substat |
| Validation.CheckForm | src/components/BruteForceModal.jsx:94-136 | the returned outcome is the first failing check in source order, or Pass |
| Validation.ValidateAccepts | src/components/BruteForceModal.jsx:94-136 | the form passes exactly when all fields are present, there is at least one set and one main stat and at least four substats, every set suits the part, and every main stat leaves at least four other substats |
| Validation.ValidateRejects | src/components/BruteForceModal.jsx:94-136 | a failure names a check that fails, and every earlier check passes, down to the first bad set or main stat |
| Generator.OverlappingStats | src/components/BruteForceModal.jsx:371-378 | true exactly when some substat has the main stat's identifier |
| Generator.ResolveUpgrade | src/components/BruteForceModal.jsx:148-150 | each substat keeps its stat and gets the value high * (1 + count) |
| Generator.RelicStore.SetRelic | src/components/BruteForceModal.jsx:175 | the relic is appended to the store |
| Generator.EmitForSet | src/components/BruteForceModal.jsx:153-176 | every main stat that the substats do not contain adds one relic to the store, in order |
| Generator.EmitForUpgrade | src/components/BruteForceModal.jsx:152-177 | appends the relics of every set, in order, for one resolved upgrade |
| Generator.EmitForUpgrades | src/components/BruteForceModal.jsx:146-178 | appends the relics of every distribution in turn |
| Generator.EmitCombination | src/components/BruteForceModal.jsx:142-178 | starts one combination at zero counts, generates its distributions and appends their relics |
| Generator.EmitForCombos | src/components/BruteForceModal.jsx:138-179 | appends the relics of every combination in turn |
| Generator.OnFinish | src/components/BruteForceModal.jsx:92-179 | the outcome is the validation result; on failure the store is unchanged; on success exactly the relics of `Generate` are appended, in order |
| Generator.GeneratedRelics | src/components/BruteForceModal.jsx:152-170 | every emitted relic has the following: enhance 15, grade 5 and the chosen part; a chosen set; a chosen main stat with the rounded-down value; four substats from the chosen ones, none equal to the main stat; values that resolve counts summing to five |
| Generator.CombinationAvoids | src/components/BruteForceModal.jsx:154 | no distribution of a combination overlaps a main stat that is not in it |
| Generator.GenerateComplete | src/components/BruteForceModal.jsx:138-176 | for every combination of four chosen substats, every distribution of five points over it, every chosen set and every chosen main stat outside the combination, that relic is emitted |
| Generator.GenerateSkipsOverlap | src/components/BruteForceModal.jsx:154-156 | a relic whose main stat is one of its substats is never emitted |
| Generator.GenerateCount | src/components/BruteForceModal.jsx:138-179 | when no main stat is among the chosen substats, C(n, 4) * 56 relics are emitted per set and per main stat |
| Generator.EmitCombinationCount | src/components/BruteForceModal.jsx:142-178 | a combination that avoids every main stat yields 56 relics per set and main stat |

## Left out

- The React dialog is not modelled: its form widgets, option lists, effects, cancel handling and the `onFinishFailed` message. Only the values submitted to `onFinish` are.
- In `onValuesChange`, everything after the bare `return` (lines 203-221) is unreachable and is not modelled. That includes its other rounding rules for main stats.
- `RelicAugmenter.augment` and the `BruteForce-` identifier (lines 171-172) are calls into code that is not part of this model. So is the `equippedBy: undefined` field.
- The store reload, saving, the success message and the console logging (lines 93, 140, 158, 174, 180-183) are I/O. The model keeps only the ordered list of relics handed to the store, and the error each failed check reports.
- Numbers are exact reals, not IEEE doubles. `Utils.precisionRound` is modelled as the identity, so `Render.RenderStat` states exact rounding down.
- The constant tables are parameters. They cover which stats are flat, the SPD identifier, main stat base and increment, substat high rolls, and the relic and ornament set names. Each table is a total function, so the `TypeError` that a stat missing from a table would raise is not modelled.
- A substat whose `value` is still undefined is modelled as count 0. The source treats the two alike at lines 352-353 and 364.
- Line 149 overwrites each substat's count with its value, in place, inside the upgrade list. The model builds the resolved substats as a new sequence. The counts are never read again after line 149, so nothing observable differs. Because all relics built from one upgrade share that object (line 170), the model also does not capture the aliasing between them.
- An empty or missing main stat, or missing substat stat, in `renderMainStat`/`renderSubstat` is modelled as the empty string.
- Validation.ValidateAccepts: a missing form field is modelled as `None`. JavaScript's other falsy values, such as an empty string for the part, are not distinguished.
- Generator.GenerateCount: the exact count is stated only when no chosen main stat is among the chosen substats. When one is, `GenerateComplete` and `GenerateSkipsOverlap` say which relics are emitted, but the model does not give their number.
