/**
 * Shapes shared by the combat core: stat keys and stat records, the buffs a
 * unit holds, and the skill definitions a character carries.
 *
 * The TypeScript skill records hold functions. A damage formula becomes an arrow
 * over the two units' stat records (every formula reads only stats, which are
 * never reassigned after a unit is built). The target selector, the effect
 * condition and the pre-skill action become tags that the Apollo module
 * interprets, because they read or change unit objects.
 */
module Types {

  datatype Option<+T> = None | Some(value: T)

  /** The twelve stat keys every unit carries. */
  datatype StatKey =
    | Hp | MaxHp | Mp | MaxMp
    | Strength | Agility | Intelligence | Stamina
    | AttackMin | AttackMax | Defense | CritRate

  /** A stat block: one value per key, so a partial block cannot be written down. */
  datatype Stats = Stats(
    hp: real, maxHp: real, mp: real, maxMp: real,
    strength: real, agility: real, intelligence: real, stamina: real,
    attackMin: real, attackMax: real, defense: real, critRate: real)
  {
    function Get(key: StatKey): real {
      match key
      case Hp => hp
      case MaxHp => maxHp
      case Mp => mp
      case MaxMp => maxMp
      case Strength => strength
      case Agility => agility
      case Intelligence => intelligence
      case Stamina => stamina
      case AttackMin => attackMin
      case AttackMax => attackMax
      case Defense => defense
      case CritRate => critRate
    }
  }

  type BuffId = string

  /** A buff as a unit holds it: id, display name and remaining turns. */
  datatype BuffEffect = BuffEffect(id: BuffId, name: string, duration: int)

  datatype EffectKind = Damage | Heal | Buff | Debuff | RemoveBuff

  /** A damage formula: attacker's stats, defender's stats, amount. */
  type DamageFormula = (Stats, Stats) -> real

  /** The effect conditions the content defines (interpreted by Apollo.EvalCondition). */
  datatype ConditionRule = AgilityDuel | ArmorBreakCheck

  /** One step of a skill's effect flow. */
  datatype SkillEffect = SkillEffect(
    kind: EffectKind,
    formula: Option<DamageFormula>,  // the skill's `calc`
    condition: Option<ConditionRule>,
    buffId: Option<BuffId>,
    buffDuration: Option<int>,
    probability: Option<real>)

  /** The target selectors the content defines (interpreted by Apollo.SelectTargets). */
  datatype TargetRule = NineRandomDraws | LowestStaminaFirst

  /** The pre-skill actions the content defines (run by Apollo.SkillOnePreActions). */
  datatype PreAction = ColdBloodAndFortune

  datatype ActiveSkill = ActiveSkill(
    id: int,
    name: string,
    selectTargets: TargetRule,
    preSkillActions: Option<PreAction>,
    effects: seq<SkillEffect>)

  datatype CharacterDef = CharacterDef(
    id: string,
    name: string,
    baseStats: Stats,
    activeSkills: seq<ActiveSkill>)
}
