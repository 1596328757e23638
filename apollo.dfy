/**
 * The character Apollo: base stats, and two active skills with their target
 * selectors, damage formulas, effect conditions and pre-skill action.
 *
 * `Math.random()` is not modelled: skill 1 receives the nine values it would
 * return as `draws`, each in [0, 1).
 */
module Apollo {
  import opened Types
  import opened Units

  const SkillOneHits: nat := 9
  const ArmorBreakId: BuffId := "armor_break_sin"

  const BaseStats: Stats := Stats(
    hp := 0.0, maxHp := 10000000.0, mp := 0.0, maxMp := 0.0,
    strength := 200000.0, agility := 450000.0, intelligence := 150000.0, stamina := 200000.0,
    attackMin := 1500000.0, attackMax := 2000000.0, defense := 50000.0, critRate := 0.5)

  // ---------------------------------------------------------------------
  // Skill 1: target selection

  /** Nine values of `Math.random()`, each in [0, 1). */
  predicate ValidDraws(draws: seq<real>) {
    |draws| == SkillOneHits && forall i :: 0 <= i < |draws| ==> 0.0 <= draws[i] < 1.0
  }

  /** `Math.floor(r * n)`: the index a random value `r` in [0, 1) picks among `n` entries. */
  function DrawIndex(r: real, n: nat): (k: nat)
    requires 0.0 <= r < 1.0 && n > 0
    ensures k < n
    ensures k as real <= r * n as real < k as real + 1.0
  {
    ScaledDrawInRange(r, n);
    (r * n as real).Floor
  }

  /** A value in [0, 1) scaled by `n` lies in [0, n). */
  lemma ScaledDrawInRange(r: real, n: nat)
    requires 0.0 <= r < 1.0 && n > 0
    ensures 0.0 <= r * n as real < n as real
  {
    assert n as real - r * n as real == (1.0 - r) * n as real;
  }

  /** Dividing by a positive `n` on one side is multiplying by it on the other. */
  lemma DivideBoth(a: real, r: real, n: real)
    requires n > 0.0
    ensures a / n <= r <==> a <= r * n
    ensures r < a / n <==> r * n < a
  {
    assert a / n * n == a;
    if a / n <= r {
      assert r * n - a / n * n == (r - a / n) * n;
    }
    if a <= r * n {
      assert r - a / n == (r * n - a) / n;
    }
    if r < a / n {
      assert a / n * n - r * n == (a / n - r) * n;
    }
    if r * n < a {
      assert a / n - r == (a - r * n) / n;
    }
  }

  /** `DrawIndex` picks `k` exactly when the draw falls in [k / n, (k + 1) / n). */
  lemma DrawIndexInterval(r: real, n: nat, k: nat)
    requires 0.0 <= r < 1.0 && n > 0
    ensures DrawIndex(r, n) == k <==> k as real / n as real <= r < (k + 1) as real / n as real
  {
    DivideBoth(k as real, r, n as real);
    DivideBoth((k + 1) as real, r, n as real);
  }

  /** The enemies that lack (`present` false) or carry (`present` true) the buff `id`, in roster order. */
  function WithBuff(units: seq<Unit>, id: BuffId, present: bool): (r: seq<Unit>)
    reads units
    ensures forall i :: 0 <= i < |r| ==> r[i] in units && r[i].HasBuff(id) == present
    ensures forall i :: 0 <= i < |units| && units[i].HasBuff(id) == present ==> units[i] in r
  {
    if units == [] then []
    else
      var rest := WithBuff(units[1..], id, present);
      assert units == [units[0]] + units[1..];
      if units[0].HasBuff(id) == present then [units[0]] + rest else rest
  }

  /** `[...priorityTargets, ...otherTargets]`: enemies without Armor Break first, then those with it. */
  function SkillOneCandidates(living: seq<Unit>): seq<Unit>
    reads living
  {
    WithBuff(living, ArmorBreakId, false) + WithBuff(living, ArmorBreakId, true)
  }

  /** The two halves of the split together hold each unit exactly as often as the roster does. */
  lemma {:induction false} SplitIsPermutation(units: seq<Unit>, id: BuffId)
    ensures multiset(WithBuff(units, id, false)) + multiset(WithBuff(units, id, true)) == multiset(units)
  {
    if units != [] {
      SplitIsPermutation(units[1..], id);
      assert units == [units[0]] + units[1..];
    }
  }

  /** The priority candidates are a permutation of the living enemies, unflagged ones first. */
  lemma CandidatesPermuteLiving(living: seq<Unit>)
    ensures multiset(SkillOneCandidates(living)) == multiset(living)
    ensures var c := SkillOneCandidates(living);
            forall i, j :: 0 <= i < j < |c| && c[i].HasBuff(ArmorBreakId) ==> c[j].HasBuff(ArmorBreakId)
  {
    SplitIsPermutation(living, ArmorBreakId);
    var p := WithBuff(living, ArmorBreakId, false);
    var o := WithBuff(living, ArmorBreakId, true);
    var c := p + o;
    assert forall k :: 0 <= k < |p| ==> c[k] == p[k];
    assert forall k :: |p| <= k < |c| ==> c[k] == o[k - |p|];
  }

  /**
   * Skill 1's `selectTargets`. The TypeScript code also builds the priority candidates
   * (SkillOneCandidates) here but then draws from the living enemies
   * themselves; each of the nine draws picks `living[floor(r * |living|)]`, and
   * with no living enemy every pick is undefined and filtered out.
   */
  function SkillOneSelectTargets(enemies: seq<Unit>, draws: seq<real>): (ts: seq<Unit>)
    reads enemies`currentHp
    requires ValidDraws(draws)
    ensures Living(enemies) == [] ==> ts == []
    ensures Living(enemies) != [] ==> |ts| == SkillOneHits
    ensures forall i :: 0 <= i < |ts| ==> ts[i] in enemies && ts[i].IsAlive()
  {
    var living := Living(enemies);
    if |living| == 0 then []
    else seq(SkillOneHits, i requires 0 <= i < SkillOneHits => living[DrawIndex(draws[i], |living|)])
  }

  /**
   * Hit `i` lands on the living enemy `living[k]` when its draw falls in
   * [k / n, (k + 1) / n), and, when no enemy is listed twice, only then.
   */
  lemma SkillOneHitLandsByDraw(enemies: seq<Unit>, draws: seq<real>, i: nat, k: nat)
    requires ValidDraws(draws) && i < SkillOneHits && k < |Living(enemies)|
    ensures var living := Living(enemies);
            var n := |living| as real;
            var hit := SkillOneSelectTargets(enemies, draws)[i];
            && (k as real / n <= draws[i] < (k + 1) as real / n ==> hit == living[k])
            && (NoDuplicates(enemies) && hit == living[k] ==> k as real / n <= draws[i] < (k + 1) as real / n)
  {
    var living := Living(enemies);
    var j := DrawIndex(draws[i], |living|);
    DrawIndexInterval(draws[i], |living|, k);
    LivingKeepsNoDuplicates(enemies);
    if NoDuplicates(enemies) && living[j] == living[k] {
      assert j == k;
    }
  }

  /** How many of the draws fall below `bound`. */
  function CountBelow(draws: seq<real>, bound: real): (c: nat)
    ensures c <= |draws|
  {
    if draws == [] then 0
    else (if draws[0] < bound then 1 else 0) + CountBelow(draws[1..], bound)
  }

  /** The living roster of two distinct living enemies is the pair itself. */
  lemma LivingPair(e1: Unit, e2: Unit)
    requires e1.IsAlive() && e2.IsAlive()
    ensures Living([e1, e2]) == [e1, e2]
  {
    assert [e1, e2][1..] == [e2];
    assert [e2][1..] == [];
  }

  /** Against two living enemies, a draw below 1/2 hits the first and any other draw the second. */
  lemma SkillOneTwoEnemyHit(e1: Unit, e2: Unit, draws: seq<real>, i: nat)
    requires ValidDraws(draws) && e1 != e2 && e1.IsAlive() && e2.IsAlive() && i < SkillOneHits
    ensures var hit := SkillOneSelectTargets([e1, e2], draws)[i];
            && (hit == e1 <==> draws[i] < 0.5)
            && (hit == e2 <==> draws[i] >= 0.5)
  {
    LivingPair(e1, e2);
    DrawIndexInterval(draws[i], 2, 0);
  }

  /** When each entry is `a` exactly for draws below `bound` and `b` otherwise, `a` occurs once per such draw. */
  lemma {:induction false} CountByDraw(ts: seq<Unit>, draws: seq<real>, bound: real, a: Unit, b: Unit)
    requires a != b && |ts| == |draws|
    requires forall i :: 0 <= i < |ts| ==> ts[i] == if draws[i] < bound then a else b
    ensures multiset(ts)[a] == CountBelow(draws, bound)
    ensures multiset(ts)[b] == |draws| - CountBelow(draws, bound)
  {
    if ts != [] {
      assert forall i :: 0 <= i < |ts[1..]| ==> ts[1..][i] == ts[i + 1] && draws[1..][i] == draws[i + 1];
      CountByDraw(ts[1..], draws[1..], bound, a, b);
      assert ts == [ts[0]] + ts[1..];
    }
  }

  /** Two living enemies split the nine hits by draw: one to the first per draw below 1/2, the rest to the second. */
  lemma SkillOneSplitsNineHits(e1: Unit, e2: Unit, draws: seq<real>)
    requires ValidDraws(draws) && e1 != e2 && e1.IsAlive() && e2.IsAlive()
    ensures var ts := SkillOneSelectTargets([e1, e2], draws);
            && |ts| == 9
            && multiset(ts)[e1] == CountBelow(draws, 0.5)
            && multiset(ts)[e2] == 9 - CountBelow(draws, 0.5)
  {
    var ts := SkillOneSelectTargets([e1, e2], draws);
    LivingPair(e1, e2);
    forall i | 0 <= i < |ts| ensures ts[i] == if draws[i] < 0.5 then e1 else e2 {
      SkillOneTwoEnemyHit(e1, e2, draws, i);
    }
    CountByDraw(ts, draws, 0.5, e1, e2);
  }

  // ---------------------------------------------------------------------
  // Skill 2: target selection

  /**
   * Where a stable ascending sort by stamina puts its first element: the
   * lowest stamina, ties going to the earliest unit.
   */
  function LowestStaminaIndex(units: seq<Unit>): (k: nat)
    requires |units| > 0
    ensures k < |units|
    ensures forall j :: 0 <= j < |units| ==> units[k].GetStat(Stamina) <= units[j].GetStat(Stamina)
    ensures forall j :: 0 <= j < k ==> units[j].GetStat(Stamina) > units[k].GetStat(Stamina)
  {
    if |units| == 1 then 0
    else
      var k := LowestStaminaIndex(units[1..]) + 1;
      assert units[k] == units[1..][k - 1];
      assert forall j :: 1 <= j < |units| ==> units[j] == units[1..][j - 1];
      if units[0].GetStat(Stamina) <= units[k].GetStat(Stamina) then 0 else k
  }

  /** Every living unit before roster position `p` has more stamina than the unit at `p`. */
  ghost predicate EarlierHaveMoreStamina(units: seq<Unit>, p: nat)
    reads units`currentHp
    requires p < |units|
  {
    forall i :: 0 <= i < p && units[i].IsAlive() ==> units[i].GetStat(Stamina) > units[p].GetStat(Stamina)
  }

  /** The living unit `LowestStaminaIndex` picks is the first of the minimal ones in roster order. */
  lemma FirstMinimalPosition(units: seq<Unit>, k: nat) returns (p: nat)
    requires |Living(units)| > 0 && k == LowestStaminaIndex(Living(units))
    ensures p < |units| && units[p] == Living(units)[k] && EarlierHaveMoreStamina(units, p)
  {
    var living := Living(units);
    p := LivingPosition(units, k);
    forall i | 0 <= i < p && units[i].IsAlive()
      ensures units[i].GetStat(Stamina) > units[p].GetStat(Stamina)
    {
      assert units[..p][i] == units[i];
      assert units[i] in Living(units[..p]);
      var j :| 0 <= j < k && living[..k][j] == units[i];
      assert living[j] == units[i];
    }
  }

  /** Skill 2's `selectTargets`: the living enemy with the lowest stamina, or none. */
  function SkillTwoSelectTargets(enemies: seq<Unit>): (ts: seq<Unit>)
    reads enemies`currentHp
    ensures ts == [] <==> Living(enemies) == []
    ensures ts != [] ==> |ts| == 1 && ts[0] in enemies && ts[0].IsAlive()
    ensures ts != [] ==> forall i :: 0 <= i < |enemies| && enemies[i].IsAlive() ==>
              ts[0].GetStat(Stamina) <= enemies[i].GetStat(Stamina)
    ensures ts != [] ==> exists p :: 0 <= p < |enemies| && enemies[p] == ts[0] && EarlierHaveMoreStamina(enemies, p)
  {
    var living := Living(enemies);
    if |living| > 0 then
      var k := LowestStaminaIndex(living);
      assert forall i :: 0 <= i < |enemies| && enemies[i].IsAlive() ==> exists j :: 0 <= j < |living| && living[j] == enemies[i];
      assert exists p :: 0 <= p < |enemies| && enemies[p] == living[k] && EarlierHaveMoreStamina(enemies, p) by {
        var p := FirstMinimalPosition(enemies, k);
      }
      [living[k]]
    else []
  }

  /** Draws suffice for a selector: only the nine-draw selector consumes any. */
  predicate DrawsSuffice(rule: TargetRule, draws: seq<real>) {
    rule == NineRandomDraws ==> ValidDraws(draws)
  }

  /** A skill's `selectTargets(ctx)`, given the enemy roster. */
  function SelectTargets(rule: TargetRule, enemies: seq<Unit>, draws: seq<real>): (ts: seq<Unit>)
    reads enemies`currentHp
    requires DrawsSuffice(rule, draws)
    ensures Living(enemies) == [] ==> ts == []
    ensures forall i :: 0 <= i < |ts| ==> ts[i] in enemies && ts[i].IsAlive()
  {
    match rule
    case NineRandomDraws => SkillOneSelectTargets(enemies, draws)
    case LowestStaminaFirst => SkillTwoSelectTargets(enemies)
  }

  // ---------------------------------------------------------------------
  // Damage formulas and conditions

  /** Skill 1: attack_max x 8 + agility x 16 + attack_max x 0.8. */
  function SkillOneDamage(attacker: Stats): (d: real)
    ensures attacker.attackMax >= 0.0 && attacker.agility >= 0.0 ==> d >= 0.0
  {
    attacker.attackMax * 8.0 + attacker.agility * 16.0 + attacker.attackMax * 0.8
  }

  /** Skill 2: attack_max x 8 + agility x 10 + attack_max x 1.0. */
  function SkillTwoDamage(attacker: Stats): (d: real)
    ensures attacker.attackMax >= 0.0 && attacker.agility >= 0.0 ==> d >= 0.0
  {
    attacker.attackMax * 8.0 + attacker.agility * 10.0 + attacker.attackMax * 1.0
  }

  /** Both formulas grow with attack_max and agility; skill 1 adds 6 x agility and loses 0.2 x attack_max against skill 2. */
  lemma DamageFormulasCompare(a: Stats, b: Stats)
    ensures a.attackMax <= b.attackMax && a.agility <= b.agility ==>
              SkillOneDamage(a) <= SkillOneDamage(b) && SkillTwoDamage(a) <= SkillTwoDamage(b)
    ensures SkillOneDamage(a) - SkillTwoDamage(a) == 6.0 * a.agility - 0.2 * a.attackMax
  {
  }

  /** The effect conditions: each branch answers true, so neither ever fails. */
  function EvalCondition(rule: ConditionRule, attacker: Unit, defender: Unit): (met: bool)
    reads defender
    ensures met
  {
    match rule
    case AgilityDuel =>
      if attacker.GetStat(Agility) > defender.GetStat(Agility) then true else true
    case ArmorBreakCheck =>
      if defender.HasBuff(ArmorBreakId) then true else true
  }

  // ---------------------------------------------------------------------
  // Pre-skill action and the skill records

  const ColdBlood: BuffEffect := BuffEffect("cold_blood_sacred", "冷血(聖護)", 4)
  const Fortune: BuffEffect := BuffEffect("fortune_sacred", "幸運(聖護)", 4)

  /** The attacker's buff table after a skill's pre-skill action. */
  function PreActionBuffs(pre: Option<PreAction>, buffs: map<BuffId, BuffEffect>): (r: map<BuffId, BuffEffect>)
    ensures pre.Some? ==> "cold_blood_sacred" in r && r["cold_blood_sacred"].duration == 4
    ensures pre.Some? ==> "fortune_sacred" in r && r["fortune_sacred"].duration == 4
    ensures r.Keys == buffs.Keys + (if pre.Some? then {"cold_blood_sacred", "fortune_sacred"} else {})
    ensures forall id :: id in buffs && id != "cold_blood_sacred" && id != "fortune_sacred" ==> r[id] == buffs[id]
    ensures pre.None? ==> r == buffs
  {
    match pre
    case None => buffs
    case Some(ColdBloodAndFortune) => buffs[ColdBlood.id := ColdBlood][Fortune.id := Fortune]
  }

  /** Skill 1's `preSkillActions`: the attacker gains Cold Blood, then Fortune. */
  method SkillOnePreActions(ctx: BattleContext)
    modifies ctx.attacker`buffs
    ensures ctx.attacker.buffs == PreActionBuffs(Some(ColdBloodAndFortune), old(ctx.attacker.buffs))
  {
    ctx.attacker.AddBuff(ColdBlood);
    ctx.attacker.AddBuff(Fortune);
  }

  const SkillOne: ActiveSkill := ActiveSkill(
    1, "輝きの黄金色", NineRandomDraws, Some(ColdBloodAndFortune),
    [ SkillEffect(Damage, Some((a: Stats, d: Stats) => SkillOneDamage(a)), Some(AgilityDuel), None, None, None),
      SkillEffect(Debuff, None, Some(ArmorBreakCheck), None, None, None) ])

  const SkillTwo: ActiveSkill := ActiveSkill(
    2, "慕われる身", LowestStaminaFirst, None,
    [ SkillEffect(Damage, Some((a: Stats, d: Stats) => SkillTwoDamage(a)), None, None, None, None) ])

  const ApolloDef: CharacterDef := CharacterDef("apollo_mr", "アポロ", BaseStats, [SkillOne, SkillTwo])
}
