# Combat-resolution core of the RPG simulator, in Dafny

This project models the combat-resolution slice of a turn-based RPG
simulator and proves properties about it. The slice has four parts:

- **Units** (`unit.dfy`, module `Units`). `Unit` is a class.
  - It has a `const` name and stat block, a `real` current HP, and a buff
    table of type `map<BuffId, BuffEffect>`.
  - Damage floors HP at zero. Healing caps it at the base max HP.
  - Adding a buff replaces any entry with the same id.
  - Also here: the living-unit filter, and `getRandomTargets` with the
    result of its random-comparator sort passed in as a rearrangement of the
    living units.
- **Sacred buffs** (`sacred_buffs.dfy`, module `SacredBuffs`).
  - The eleven-entry definition table with its sacred and removable flags.
  - The five `modifyDamageTaken` hooks, including the linear,
    HP-interpolated Shadow Armor cut rate clamped to [0.30, 0.60].
  - Seven Stars' duration-scaled stat modifiers.
  - A composition `Chain` of hooks. The code never composes them, but it
    states the "once zero, stays zero" property.
- **Apollo** (`apollo.dfy`, module `Apollo`).
  - Skill 1 makes nine draws with replacement among the living enemies.
    The nine values of `Math.random()` are passed in as `draws`.
  - Skill 2 picks the living enemy with the lowest stamina, first on ties.
  - The two linear damage formulas and the two always-true conditions.
  - Skill 1's pre-skill action, which grants Cold Blood and Fortune.
- **The executor** (`simulator.dfy`, module `Simulator`).
  - `executeSkill` is a method: pre-skill action, then target selection,
    then a loop over targets × effects that calls `TakeDamage`.
  - Its contract ties every enemy's final HP to `ApplyHits` over the amounts
    routed to it. `ApplyHits` applies the floor-at-zero hits in order.
  - The lemmas reduce that to max(0, HP − times selected × one visit's total).
    They also cover the two-enemy, nine-hit scenario.

Shared shapes live in `types.dfy` (module `Types`):
- A stat block is a record with all twelve keys.
- A damage `calc` becomes an arrow over the two stat blocks.
- Selectors, conditions and pre-skill actions become tags that `Apollo`
  interprets, because they read or change unit objects.

Numbers are exact `real`s. The code's `Decimal` (src/core/MockDecimal.ts) is a
thin wrapper around JavaScript doubles, so its rounding is not modelled (see
"Left out").

Where the code's own comments describe more than the code does, the model
follows the code:
- `removeBuff` deletes by id and never consults `isRemovable`, although
  Shadow Armor's definition notes that ordinary removal should not clear it.
- `getStat` returns the base stat. Folding buff modifiers in is still a TODO.
- `heal` caps at the base `max_hp`, and has no liveness check: a positive
  heal brings a unit at 0 HP back (`HealRevives`).
- A damage effect's `condition` is evaluated, but its answer only selects a
  log line. It never gates the damage, and never dispels anything.
- `executeSkill` applies no `modifyDamageTaken` chain. It passes `calc`'s
  amount straight to `takeDamage`.
- Skill 1 builds the priority partition of enemies without Armor Break
  first, then draws from the unpartitioned living list. The partition is
  modelled and proved a permutation (`CandidatesPermuteLiving`), but
  selection does not use it. So a draw never prefers an unflagged enemy.

`Simulator.Times(n, x)` is `x` added `n` times. `TimesIsProduct` proves it
equals `n · x`. The executor lemmas are stated with it.

## Model

| member | source | states |
|---|---|---|
| Units.DamagedHp | src/core/Unit.ts:31-34 | HP after a hit is never negative and never below hp − amount; it is exactly hp − amount or 0 |
| Units.HealedHp | src/core/Unit.ts:36-41 | HP after a heal never exceeds max HP or hp + amount; it is exactly one of them |
| Units.DamageKeepsHpInRange | src/core/Unit.ts:31-34 | a non-negative hit on an in-range HP leaves it in [0, max_hp] and not above its old value |
| Units.HealKeepsHpInRange | src/core/Unit.ts:36-41 | a non-negative heal on an in-range HP leaves it in range and not below its old value |
| Units.HealAtFullHpIsNoOp | src/core/Unit.ts:36-41 | healing a unit at max HP by a non-negative amount leaves HP where it is |
| Units.DamageComposes | src/core/Unit.ts:31-34 | two non-negative hits in a row land where one hit of their sum lands |
| Units.AliveAfterHit | src/core/Unit.ts:27-34 | `isAlive` after a hit: the unit lives on exactly when the hit is smaller than its HP |
| Units.HealRevives | src/core/Unit.ts:27-41 | a positive heal from HP ≥ 0 with a positive max HP always leaves the unit alive, dead or not before |
| Units.Unit.constructor | src/core/Unit.ts:10-19 | every stat equals the base value; HP starts at max_hp, whatever the `hp` base value; no buffs |
| Units.Unit.GetStat | src/core/Unit.ts:22-25 | the stat block's value for the key; it reads no mutable field, so no buff or HP change ever alters it |
| Units.Unit.TakeDamage | src/core/Unit.ts:31-34 | new HP is max(0, old − amount); with amount ≥ 0 and HP in [0, max_hp] it stays in range and does not rise; afterwards `IsAlive()` holds exactly when amount < old HP; only HP changes |
| Units.Unit.Heal | src/core/Unit.ts:36-41 | new HP is min(old + amount, max_hp); at full HP a non-negative heal is a no-op; a positive heal from HP ≥ 0 with positive max_hp leaves `IsAlive()` true; only HP changes |
| Units.Unit.AddBuff | src/core/Unit.ts:43-45 | the table maps b.id to b; the key set gains only b.id; other entries unchanged; size grows only for a new id (replace, never stack); afterwards `HasBuff(x)` holds exactly for b.id and the old ids |
| Units.Unit.RemoveBuff | src/core/Unit.ts:47-49 | afterwards `HasBuff(x)` holds exactly for the old ids other than id; the table is the old one minus id; an absent id is a no-op; HP untouched |
| Units.Living | src/core/Unit.ts:57 | the filter keeps only roster members that are alive, and keeps every alive one; its order is fixed by `LivingConcat` and `LivingSingleton` |
| Units.LivingIsSubMultiset | src/core/Unit.ts:57 | the filter takes each unit at most as often as the roster holds it |
| Units.LivingKeepsNoDuplicates | src/core/Unit.ts:57 | a roster without duplicates filters to a list without duplicates |
| Units.LivingConcat | src/core/Unit.ts:57 | the filter keeps roster order: filtering `a + b` gives the filtered `a` followed by the filtered `b` |
| Units.LivingSingleton | src/core/Unit.ts:57 | a one-unit roster filters to itself when the unit is alive and to nothing otherwise |
| Units.LivingPosition | src/core/Unit.ts:57 | the k-th living unit stands at a roster position p, and the living units before p are exactly the first k of the filter |
| Units.PrefixOfRearrangement | src/core/Unit.ts:58-59 | a rearrangement of s has s's length; a prefix of it holds only members of s, each at most as often as s does, all of s when whole, and is distinct when s is |
| Units.GetRandomTargets | src/core/Unit.ts:56-60 | returns min(count, #living) units for count ≥ 0, each alive and from `units`, never more often than among the living, all of the living when count ≥ #living, distinct when `units` is |
| SacredBuffs.TableIsSacredAndKeyedById | src/data/buffs/SacredBuffs.ts:9-234 | every definition is sacred and its id equals its key |
| SacredBuffs.OnlyShadowArmorAndBloodOathArePinned | src/data/buffs/SacredBuffs.ts:15-56 | a definition is non-removable exactly when it is Shadow Armor or Blood Oath |
| SacredBuffs.LinearCutRateEndPoints | src/data/buffs/SacredBuffs.ts:37-39 | the unclamped rate is 0.30 at full HP and 0.60 at zero HP |
| SacredBuffs.LinearCutRateAntitone | src/data/buffs/SacredBuffs.ts:32-39 | for positive max HP, less HP gives a higher unclamped rate |
| SacredBuffs.ShadowArmorCutRate | src/data/buffs/SacredBuffs.ts:33-43 | the rate lies in [0.30, 0.60]; it is the linear rate when that is in range, else the nearer bound; with max HP 0 the infinite ratio lands on 0.30 for positive HP and 0.60 for negative HP |
| SacredBuffs.ModifyDamageTaken | src/data/buffs/SacredBuffs.ts:31-232 | every hook maps 0 to 0 and non-negative damage to non-negative damage |
| SacredBuffs.ShadowArmorAtZeroMaxHp | src/data/buffs/SacredBuffs.ts:33-46 | with max HP 0, Shadow Armor lets 70% through for positive HP and 40% for negative HP |
| SacredBuffs.FixedHooks | src/data/buffs/SacredBuffs.ts:88-232 | Cover halves, Rampage adds a quarter, Blessing gives 0, Wisdom passes damage through with or without an attacker |
| SacredBuffs.ShadowArmorAtFullHp | src/data/buffs/SacredBuffs.ts:31-47 | at full HP a 1,000,000 hit becomes 700,000 |
| SacredBuffs.ShadowArmorAtZeroHp | src/data/buffs/SacredBuffs.ts:31-47 | at zero HP a 1,000,000 hit becomes 400,000 |
| SacredBuffs.ShadowArmorBounds | src/data/buffs/SacredBuffs.ts:31-47 | for d ≥ 0 the result lies in [0.4·d, 0.7·d] |
| SacredBuffs.ShadowArmorMonotone | src/data/buffs/SacredBuffs.ts:31-47 | lower remaining HP never lets more of a non-negative hit through |
| SacredBuffs.ChainKeepsSign | src/data/buffs/SacredBuffs.ts:31-232 | a hook chain in sequence keeps 0 at 0 and non-negative damage non-negative |
| SacredBuffs.BlessingZeroesChain | src/data/buffs/SacredBuffs.ts:150-154 | any chain containing Blessing ends at 0, whatever comes after it |
| SacredBuffs.SevenStarsStatMods | src/data/buffs/SacredBuffs.ts:172-180 | the modifiers have exactly the keys attack_percent, crit_rate and all_stats_percent |
| SacredBuffs.SevenStarsLinear | src/data/buffs/SacredBuffs.ts:172-180 | the modifiers are 0 at duration 0 and additive in the duration; attack equals crit, and 2·attack = 3·all-stats |
| Apollo.DrawIndex | src/data/characters/Apollo.ts:51 | `floor(r · n)` for r in [0, 1) is an index below n, with k ≤ r·n < k + 1 |
| Apollo.DrawIndexInterval | src/data/characters/Apollo.ts:51 | the draw picks index k exactly when it lies in [k/n, (k+1)/n) |
| Apollo.WithBuff | src/data/characters/Apollo.ts:39-40 | each half of the split holds exactly the roster members with, or without, the buff |
| Apollo.SplitIsPermutation | src/data/characters/Apollo.ts:39-40 | the two halves together hold each unit exactly as often as the roster does |
| Apollo.CandidatesPermuteLiving | src/data/characters/Apollo.ts:39-44 | the candidates are a permutation of the living enemies, and no flagged enemy precedes an unflagged one |
| Apollo.SkillOneSelectTargets | src/data/characters/Apollo.ts:35-53 | with no living enemy the result is empty; otherwise exactly 9 entries, each a living enemy, duplicates allowed |
| Apollo.SkillOneHitLandsByDraw | src/data/characters/Apollo.ts:50-52 | hit i lands on living[k] when draws[i] lies in [k/n, (k+1)/n) for n living enemies, and, when no enemy is listed twice, only then |
| Apollo.SkillOneTwoEnemyHit | src/data/characters/Apollo.ts:50-52 | against two living enemies, hit i goes to the first exactly when draws[i] < 0.5 and to the second exactly when draws[i] ≥ 0.5 |
| Apollo.CountByDraw | src/data/characters/Apollo.ts:50-52 | a hit list routed by a threshold on the draws holds the first unit once per draw below it, the second once per other draw |
| Apollo.SkillOneSplitsNineHits | src/data/characters/Apollo.ts:50-52 | against two living enemies the first is hit once per draw below 0.5, the second 9 minus that many times |
| Apollo.LowestStaminaIndex | src/data/characters/Apollo.ts:116-121 | the index a stable ascending sort by stamina puts first: minimal stamina, and no earlier unit ties it |
| Apollo.FirstMinimalPosition | src/data/characters/Apollo.ts:116-121 | the unit the stable stamina sort puts first stands at a roster position before which every living unit has strictly more stamina |
| Apollo.SkillTwoSelectTargets | src/data/characters/Apollo.ts:113-122 | empty exactly when no enemy lives; otherwise one living enemy whose stamina is ≤ every living enemy's, and the first such in roster order: every living enemy before it has strictly more stamina |
| Apollo.SelectTargets | src/data/characters/Apollo.ts:35-122 | a skill's selection holds only living enemies, and is empty when none lives |
| Apollo.SkillOneDamage | src/data/characters/Apollo.ts:70-77 | skill 1's amount depends on the attacker only and is non-negative for non-negative attack_max and agility |
| Apollo.SkillTwoDamage | src/data/characters/Apollo.ts:127-131 | skill 2's amount depends on the attacker only and is non-negative for non-negative attack_max and agility |
| Apollo.DamageFormulasCompare | src/data/characters/Apollo.ts:70-131 | both formulas rise with attack_max and agility; skill 1 minus skill 2 is 6·agility − 0.2·attack_max |
| Apollo.EvalCondition | src/data/characters/Apollo.ts:79-100 | both conditions answer true for every attacker and defender |
| Apollo.PreActionBuffs | src/data/characters/Apollo.ts:56-63 | after the action the attacker holds cold_blood_sacred and fortune_sacred with duration 4; no other entry changes; no action leaves the table as it was |
| Apollo.SkillOnePreActions | src/data/characters/Apollo.ts:56-63 | the attacker's buff table becomes `PreActionBuffs` of the old one; nothing else changes |
| Simulator.HitsAccumulate | src/core/Unit.ts:31-34 | non-negative hits applied one at a time from HP ≥ 0 leave max(0, HP − their sum) |
| Simulator.ApplyHitsConcat | src/test_simulator.ts:50-70 | applying two runs of hits in a row is applying their concatenation |
| Simulator.VisitsSum | src/test_simulator.ts:50-70 | the amounts routed to a unit total (times it was selected) × (one visit's total) |
| Simulator.HpAfterVisits | src/test_simulator.ts:50-70 | with non-negative amounts and HP ≥ 0, a unit ends at max(0, HP − multiplicity × one visit's total) |
| Simulator.NothingRoutedNoChange | src/test_simulator.ts:46-69 | a unit not selected, or a skill with no dealing effect (an empty target list included), keeps its HP |
| Simulator.NoDealingEffects | src/test_simulator.ts:54 | effects that are not `damage` with a `calc` contribute no hit |
| Simulator.SkillOneVisit | src/test_simulator.ts:53-69 | one visit of Apollo's skill 1 is a single hit of its formula; the debuff effect deals nothing |
| Simulator.HpAfterSingleHitVisits | src/test_simulator.ts:50-70 | one hit of d per selection leaves max(0, HP − multiplicity × d) |
| Simulator.SkillOneOnTwoEnemies | src/test_simulator.ts:50-70 | skill 1 on two living enemies: with c draws below 0.5, the first ends at max(0, HP − c × the amount) and the second at max(0, HP − (9 − c) × the amount) |
| Simulator.VisitTarget | src/test_simulator.ts:53-69 | one pass over the effects calls `TakeDamage` once per dealing effect, in order; the condition never gates it; only that target's HP changes |
| Simulator.HitTargets | src/test_simulator.ts:50-70 | after the loop, each enemy's HP is its old HP with all routed hits applied in order, duplicates included; no buff changes |
| Simulator.ExecuteSkill | src/test_simulator.ts:36-76 | an index outside the skill list throws before any change (reported as `thrown`, with buffs and HP unchanged); otherwise the attacker's buffs become the pre-action result and each enemy's HP is its entry HP with the hits routed by the selection applied |

## Left out

- Logging: every `ctx.log`/`console.log` line and its formatting. This is output only.
- `postSkillActions`: in the content it only writes a log line, so the executor has no step 4.
- Double-precision arithmetic. `Decimal` (src/core/MockDecimal.ts) wraps a JavaScript double, and the model computes with exact reals, so rounding, overflow to Infinity and NaN are not modelled. Three paths leave `Decimal` for a bare double through `toNumber()` or plain arithmetic:
  - Shadow Armor's HP ratio and cut rate (src/data/buffs/SacredBuffs.ts:35-45);
  - Seven Stars' `0.15 * duration` and `0.10 * duration` (src/data/buffs/SacredBuffs.ts:176-178);
  - skill 2's stamina comparator (src/data/characters/Apollo.ts:117).
- `floor` and `toString` in log lines.
- `Math.random()` is not modelled.
  - Skill 1 takes the nine values as `draws`.
  - Units.GetRandomTargets: takes its sort's result as `shuffled`, required to be a rearrangement of the living units. A sort only rearranges whatever the comparator answers. Which rearrangement the random comparator produces is not modelled.
- The demo script around `executeSkill`: unit setup, the context literal, and the calls.
- The `onApplied`, `onHitReceived` and `onTurnStart` hooks. They only log, or hold commented-out calls.
- The `getStatMods` maps of Cover, Mist, Rampage, Blessing and Shinyou. Nothing reads them, because `getStat` does not fold buffs.
- The `description` strings of definitions that have no hooks.
- JavaScript `Map` insertion order. Nothing in the core iterates a buff table.
- SacredBuffs.ModifyDamageTaken: Shadow Armor requires HP and max HP not both 0. There the ratio 0 / 0 is NaN. Neither range check catches NaN, so the hook returns NaN. A zero max HP with a non-zero HP is modelled: the infinite ratio is clamped to a bound.
- Units.GetRandomTargets: `count` is an integer. A fractional count, which `slice` would truncate, is not modelled.
- Simulator.HitsAccumulate: requires HP ≥ 0. From a negative HP, an empty run of hits leaves the negative value, while the closed form gives 0.
- Simulator.ExecuteSkill: `skillIndex` is an integer. A fractional index, which also reads `undefined` and throws, is not modelled. The throw is reported as the `thrown` result rather than propagated.
- Simulator.HitTargets: requires every target to be on the enemy roster. That is the frame `executeSkill` works in, and `SelectTargets` guarantees it.
- Skill definitions hold tags, not closures. A `calc` is an arrow over stat blocks, and selectors, conditions and pre-skill actions are the content's own, interpreted by `Apollo`. Other content would need new tags.
