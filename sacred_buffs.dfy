/**
 * The sacred buff table: each definition's id, display name, sacred and
 * removable flags, and the damage-taken hooks and duration-scaled stat
 * modifiers the definitions carry. All numbers are exact reals.
 */
module SacredBuffs {
  import opened Types

  /** What a damage-taken hook reads: the owner's HP and max HP, and whether an attacker is known. */
  datatype HookContext = HookContext(ownerHp: real, ownerMaxHp: real, hasAttacker: bool)

  /** The damage-taken hooks the table defines, one per definition that has one. */
  datatype DamageHook = ShadowArmorHook | CoverHook | RampageHook | BlessingHook | WisdomHook

  datatype BuffDef = BuffDef(
    id: BuffId,
    name: string,
    isSacred: bool,
    isRemovable: bool,
    modifyDamageTaken: Option<DamageHook>)

  const ShadowArmorId: BuffId := "shadow_armor_sacred"
  const BloodOathId: BuffId := "blood_oath_sacred"

  const Table: map<BuffId, BuffDef> := map[
    "shadow_armor_sacred" := BuffDef("shadow_armor_sacred", "影甲(聖護)", true, false, Some(ShadowArmorHook)),
    "blood_oath_sacred" := BuffDef("blood_oath_sacred", "血誓(聖護)", true, false, None),
    "taunt_sacred" := BuffDef("taunt_sacred", "嘲弄(聖護)", true, true, None),
    "cover_sacred" := BuffDef("cover_sacred", "援護(聖護)", true, true, Some(CoverHook)),
    "mist_sacred" := BuffDef("mist_sacred", "霧中(聖護)", true, true, None),
    "rampage_sacred" := BuffDef("rampage_sacred", "暴走(聖護)", true, true, Some(RampageHook)),
    "blessing_sacred" := BuffDef("blessing_sacred", "祝福(聖護)", true, true, Some(BlessingHook)),
    "seven_stars_sacred" := BuffDef("seven_stars_sacred", "七星(聖護)", true, true, None),
    "flower_words_sacred" := BuffDef("flower_words_sacred", "花詞(聖護)", true, true, None),
    "shinyou_sacred" := BuffDef("shinyou_sacred", "心曜(聖護)", true, true, None),
    "wisdom_sacred" := BuffDef("wisdom_sacred", "英知(聖護)", true, true, Some(WisdomHook))
  ]

  /** Every definition is sacred and is filed under its own id. */
  lemma TableIsSacredAndKeyedById()
    ensures forall k :: k in Table ==> Table[k].isSacred && Table[k].id == k
  {
  }

  /** Only Shadow Armor and Blood Oath resist ordinary removal. */
  lemma OnlyShadowArmorAndBloodOathArePinned()
    ensures forall k :: k in Table ==> (!Table[k].isRemovable <==> k == ShadowArmorId || k == BloodOathId)
    ensures ShadowArmorId in Table && BloodOathId in Table
  {
  }

  /** Shadow Armor's unclamped cut rate: 0.60 at 0% HP falling linearly to 0.30 at 100%. */
  function LinearCutRate(hp: real, maxHp: real): real
    requires maxHp != 0.0
  {
    0.60 - (hp / maxHp) * 0.30
  }

  /** The linear rate meets its end points: 0.30 at full HP and 0.60 at zero HP. */
  lemma LinearCutRateEndPoints(maxHp: real)
    requires maxHp != 0.0
    ensures LinearCutRate(maxHp, maxHp) == 0.30
    ensures LinearCutRate(0.0, maxHp) == 0.60
  {
    assert maxHp / maxHp == 1.0;
  }

  /** Less HP, higher rate. */
  lemma LinearCutRateAntitone(lowHp: real, highHp: real, maxHp: real)
    requires maxHp > 0.0 && lowHp <= highHp
    ensures LinearCutRate(lowHp, maxHp) >= LinearCutRate(highHp, maxHp)
  {
    assert highHp / maxHp - lowHp / maxHp == (highHp - lowHp) / maxHp;
  }

  /**
   * Whether the cut rate is a number. With a zero max HP the HP ratio is an
   * infinity whose sign is the HP's, and the range checks turn it into a
   * bound; only 0 / 0 gives NaN, which neither check catches.
   */
  predicate CutRateDefined(hp: real, maxHp: real) {
    maxHp != 0.0 || hp != 0.0
  }

  /** The cut rate after the two range checks. */
  function ShadowArmorCutRate(hp: real, maxHp: real): (c: real)
    requires CutRateDefined(hp, maxHp)
    ensures 0.30 <= c <= 0.60
    ensures maxHp != 0.0 && 0.30 <= LinearCutRate(hp, maxHp) <= 0.60 ==> c == LinearCutRate(hp, maxHp)
    ensures maxHp != 0.0 && LinearCutRate(hp, maxHp) < 0.30 ==> c == 0.30
    ensures maxHp != 0.0 && LinearCutRate(hp, maxHp) > 0.60 ==> c == 0.60
    ensures maxHp == 0.0 ==> c == if hp > 0.0 then 0.30 else 0.60
  {
    if maxHp == 0.0 then
      // hp / 0 is +Infinity or -Infinity, so the rate is -Infinity or +Infinity before the checks
      if hp > 0.0 then 0.30 else 0.60
    else
      var cutRate := LinearCutRate(hp, maxHp);
      var cutRate := if cutRate < 0.30 then 0.30 else cutRate;
      if cutRate > 0.60 then 0.60 else cutRate
  }

  /** Scaling a non-negative amount keeps the order of the factors. */
  lemma ScaleMonotone(d: real, x: real, y: real)
    requires d >= 0.0 && x <= y
    ensures d * x <= d * y
  {
    assert d * y - d * x == d * (y - x);
  }

  /** What a cut rate in [0.30, 0.60] lets through of a non-negative hit. */
  lemma CutBetween(d: real, c: real)
    requires d >= 0.0 && 0.30 <= c <= 0.60
    ensures 0.4 * d <= d * (1.0 - c) <= 0.7 * d
  {
    ScaleMonotone(d, 0.4, 1.0 - c);
    ScaleMonotone(d, 1.0 - c, 0.7);
  }

  /** Cutting by a rate in [0.30, 0.60] keeps zero at zero and a non-negative hit non-negative. */
  lemma CutKeepsSign(d: real, c: real)
    requires 0.30 <= c <= 0.60
    ensures d == 0.0 ==> d * (1.0 - c) == 0.0
    ensures d >= 0.0 ==> d * (1.0 - c) >= 0.0
  {
    if d >= 0.0 {
      CutBetween(d, c);
    }
  }

  /** A larger cut rate lets less of a non-negative hit through. */
  lemma CutMonotone(d: real, cLow: real, cHigh: real)
    requires d >= 0.0 && cHigh <= cLow
    ensures d * (1.0 - cLow) <= d * (1.0 - cHigh)
  {
    ScaleMonotone(d, 1.0 - cLow, 1.0 - cHigh);
  }

  /** `modifyDamageTaken` of each hook, applied to `damage`. */
  function ModifyDamageTaken(hook: DamageHook, ctx: HookContext, damage: real): (r: real)
    requires hook == ShadowArmorHook ==> CutRateDefined(ctx.ownerHp, ctx.ownerMaxHp)
    ensures damage == 0.0 ==> r == 0.0
    ensures damage >= 0.0 ==> r >= 0.0
  {
    match hook
    case ShadowArmorHook =>
      var c := ShadowArmorCutRate(ctx.ownerHp, ctx.ownerMaxHp);
      CutKeepsSign(damage, c);
      damage * (1.0 - c)
    case CoverHook => damage * 0.5
    case RampageHook => damage * 1.25
    case BlessingHook => 0.0
    case WisdomHook => if !ctx.hasAttacker then damage else damage
  }

  /** The fixed hooks: Cover halves, Rampage adds a quarter, Blessing negates, Wisdom passes through. */
  lemma FixedHooks(ctx: HookContext, damage: real)
    ensures ModifyDamageTaken(CoverHook, ctx, damage) + ModifyDamageTaken(CoverHook, ctx, damage) == damage
    ensures ModifyDamageTaken(RampageHook, ctx, damage) == damage + damage / 4.0
    ensures ModifyDamageTaken(BlessingHook, ctx, damage) == 0.0
    ensures ModifyDamageTaken(WisdomHook, ctx, damage) == damage
  {
  }

  /** Shadow Armor at full HP lets 70% of a 1,000,000 hit through. */
  lemma ShadowArmorAtFullHp(maxHp: real, hasAttacker: bool)
    requires maxHp > 0.0
    ensures ModifyDamageTaken(ShadowArmorHook, HookContext(maxHp, maxHp, hasAttacker), 1000000.0) == 700000.0
  {
    LinearCutRateEndPoints(maxHp);
  }

  /** Shadow Armor at zero HP lets 40% of a 1,000,000 hit through. */
  lemma ShadowArmorAtZeroHp(maxHp: real, hasAttacker: bool)
    requires maxHp > 0.0
    ensures ModifyDamageTaken(ShadowArmorHook, HookContext(0.0, maxHp, hasAttacker), 1000000.0) == 400000.0
  {
    LinearCutRateEndPoints(maxHp);
  }

  /** With a zero max HP the ratio is infinite: a positive HP gets the 0.30 floor, a negative one the 0.60 cap. */
  lemma ShadowArmorAtZeroMaxHp(hp: real, hasAttacker: bool, damage: real)
    requires hp != 0.0
    ensures ModifyDamageTaken(ShadowArmorHook, HookContext(hp, 0.0, hasAttacker), damage)
         == if hp > 0.0 then damage * 0.7 else damage * 0.4
  {
  }

  /** Shadow Armor always lets between 40% and 70% of a non-negative hit through. */
  lemma ShadowArmorBounds(ctx: HookContext, damage: real)
    requires CutRateDefined(ctx.ownerHp, ctx.ownerMaxHp) && damage >= 0.0
    ensures 0.4 * damage <= ModifyDamageTaken(ShadowArmorHook, ctx, damage) <= 0.7 * damage
  {
    CutBetween(damage, ShadowArmorCutRate(ctx.ownerHp, ctx.ownerMaxHp));
  }

  /** Lower remaining HP never lets more of a hit through Shadow Armor. */
  lemma ShadowArmorMonotone(lowHp: real, highHp: real, maxHp: real, hasAttacker: bool, damage: real)
    requires maxHp > 0.0 && lowHp <= highHp && damage >= 0.0
    ensures ModifyDamageTaken(ShadowArmorHook, HookContext(lowHp, maxHp, hasAttacker), damage)
         <= ModifyDamageTaken(ShadowArmorHook, HookContext(highHp, maxHp, hasAttacker), damage)
  {
    LinearCutRateAntitone(lowHp, highHp, maxHp);
    var cLow := ShadowArmorCutRate(lowHp, maxHp);
    var cHigh := ShadowArmorCutRate(highHp, maxHp);
    assert cHigh <= cLow;
    CutMonotone(damage, cLow, cHigh);
    assert ModifyDamageTaken(ShadowArmorHook, HookContext(lowHp, maxHp, hasAttacker), damage) == damage * (1.0 - cLow);
    assert ModifyDamageTaken(ShadowArmorHook, HookContext(highHp, maxHp, hasAttacker), damage) == damage * (1.0 - cHigh);
  }

  /** Whether every hook of a chain yields a number in `ctx` (Shadow Armor does not at 0 / 0). */
  predicate ChainRuns(hooks: seq<DamageHook>, ctx: HookContext) {
    CutRateDefined(ctx.ownerHp, ctx.ownerMaxHp) || ShadowArmorHook !in hooks
  }

  /** The hooks run one after another, each on the previous one's output. */
  ghost function Chain(hooks: seq<DamageHook>, ctx: HookContext, damage: real): real
    requires ChainRuns(hooks, ctx)
  {
    if hooks == [] then damage
    else Chain(hooks[1..], ctx, ModifyDamageTaken(hooks[0], ctx, damage))
  }

  /** A chain keeps zero at zero and non-negative damage non-negative. */
  lemma {:induction false} ChainKeepsSign(hooks: seq<DamageHook>, ctx: HookContext, damage: real)
    requires ChainRuns(hooks, ctx)
    ensures damage == 0.0 ==> Chain(hooks, ctx, damage) == 0.0
    ensures damage >= 0.0 ==> Chain(hooks, ctx, damage) >= 0.0
  {
    if hooks != [] {
      assert ChainRuns(hooks[1..], ctx);
      ChainKeepsSign(hooks[1..], ctx, ModifyDamageTaken(hooks[0], ctx, damage));
    }
  }

  /** Once Blessing has zeroed the damage, no later hook raises it again. */
  lemma {:induction false} BlessingZeroesChain(hooks: seq<DamageHook>, ctx: HookContext, damage: real, i: nat)
    requires ChainRuns(hooks, ctx)
    requires i < |hooks| && hooks[i] == BlessingHook
    ensures Chain(hooks, ctx, damage) == 0.0
  {
    assert ChainRuns(hooks[1..], ctx);
    if i == 0 {
      ChainKeepsSign(hooks[1..], ctx, 0.0);
    } else {
      BlessingZeroesChain(hooks[1..], ctx, ModifyDamageTaken(hooks[0], ctx, damage), i - 1);
    }
  }

  /** Seven Stars' `getStatMods`: every modifier scales with the remaining duration. */
  function SevenStarsStatMods(duration: int): (mods: map<string, real>)
    ensures mods.Keys == {"attack_percent", "crit_rate", "all_stats_percent"}
  {
    map[
      "attack_percent" := 0.15 * duration as real,
      "crit_rate" := 0.15 * duration as real,
      "all_stats_percent" := 0.10 * duration as real
    ]
  }

  /** The modifiers are linear in the duration: zero at zero, and additive over durations. */
  lemma SevenStarsLinear(d1: int, d2: int)
    ensures forall k :: k in SevenStarsStatMods(0) ==> SevenStarsStatMods(0)[k] == 0.0
    ensures forall k :: k in SevenStarsStatMods(d1 + d2) ==>
              SevenStarsStatMods(d1 + d2)[k] == SevenStarsStatMods(d1)[k] + SevenStarsStatMods(d2)[k]
    ensures SevenStarsStatMods(d1)["attack_percent"] == SevenStarsStatMods(d1)["crit_rate"]
    ensures 2.0 * SevenStarsStatMods(d1)["attack_percent"] == 3.0 * SevenStarsStatMods(d1)["all_stats_percent"]
  {
  }
}
