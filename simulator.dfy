/**
 * The skill executor: pre-skill action, target selection, then every effect
 * against every selected target in order, routing each damage effect's amount
 * through the target's clamped `TakeDamage`.
 */
module Simulator {
  import opened Types
  import opened Units
  import Apollo

  /** Whether an effect deals damage in the executor: kind `damage` with a formula. */
  predicate Deals(e: SkillEffect) {
    e.kind == Damage && e.formula.Some?
  }

  /** The amounts one visit of a target takes, one per dealing effect, in effect order. */
  function VisitDamages(attacker: Stats, defender: Stats, effects: seq<SkillEffect>): (ds: seq<real>)
    ensures |ds| <= |effects|
  {
    if effects == [] then []
    else
      var e := effects[|effects| - 1];
      VisitDamages(attacker, defender, effects[..|effects| - 1])
        + (if Deals(e) then [e.formula.value(attacker, defender)] else [])
  }

  /** `visit` once per occurrence of `u` in `targets`, in selection order. */
  function Visits(targets: seq<Unit>, u: Unit, visit: seq<real>): seq<real> {
    if targets == [] then []
    else Visits(targets[..|targets| - 1], u, visit) + (if targets[|targets| - 1] == u then visit else [])
  }

  /** The amounts routed to `u`, in hit order: one visit's worth per occurrence of `u` in `targets`. */
  function RoutedDamages(attacker: Stats, targets: seq<Unit>, u: Unit, effects: seq<SkillEffect>): seq<real> {
    Visits(targets, u, VisitDamages(attacker, u.stats, effects))
  }

  /** HP after the hits `ds`, each applied through the clamp of `TakeDamage`. */
  function ApplyHits(hp: real, ds: seq<real>): real {
    if ds == [] then hp
    else DamagedHp(ApplyHits(hp, ds[..|ds| - 1]), ds[|ds| - 1])
  }

  function Sum(ds: seq<real>): real {
    if ds == [] then 0.0 else Sum(ds[..|ds| - 1]) + ds[|ds| - 1]
  }

  predicate NonNegative(ds: seq<real>) {
    forall i :: 0 <= i < |ds| ==> ds[i] >= 0.0
  }

  /** Non-negative hits applied one at a time leave max(0, hp - their sum). */
  lemma {:induction false} HitsAccumulate(hp: real, ds: seq<real>)
    requires hp >= 0.0 && NonNegative(ds)
    ensures ApplyHits(hp, ds) == DamagedHp(hp, Sum(ds))
    ensures Sum(ds) >= 0.0
  {
    if ds != [] {
      var init := ds[..|ds| - 1];
      assert NonNegative(init) by {
        forall i | 0 <= i < |init| ensures init[i] >= 0.0 {
          assert init[i] == ds[i];
        }
      }
      var last := ds[|ds| - 1];
      assert last >= 0.0;
      HitsAccumulate(hp, init);
      assert ApplyHits(hp, ds) == DamagedHp(ApplyHits(hp, init), last);
      assert Sum(ds) == Sum(init) + last;
      DamageComposes(hp, Sum(init), last);
    }
  }

  lemma {:induction false} SumConcat(xs: seq<real>, ys: seq<real>)
    ensures Sum(xs + ys) == Sum(xs) + Sum(ys)
  {
    if ys != [] {
      assert (xs + ys)[..|xs + ys| - 1] == xs + ys[..|ys| - 1];
      assert (xs + ys)[|xs + ys| - 1] == ys[|ys| - 1];
      SumConcat(xs, ys[..|ys| - 1]);
    } else {
      assert xs + ys == xs;
    }
  }

  lemma {:induction false} NonNegativeConcat(xs: seq<real>, ys: seq<real>)
    requires NonNegative(xs) && NonNegative(ys)
    ensures NonNegative(xs + ys)
  {
    assert forall i :: |xs| <= i < |xs + ys| ==> (xs + ys)[i] == ys[i - |xs|];
  }

  /** `x` added up `n` times: the total of `n` equal hits. */
  function Times(n: nat, x: real): real {
    if n == 0 then 0.0 else Times(n - 1, x) + x
  }

  /** The repeated sum is the product. */
  lemma {:induction false} TimesIsProduct(n: nat, x: real)
    ensures Times(n, x) == n as real * x
  {
    if n > 0 {
      TimesIsProduct(n - 1, x);
      assert (n - 1) as real * x + x == n as real * x;
    }
  }

  /** Each unit takes one visit's total for every time it was selected. */
  lemma {:induction false} VisitsSum(targets: seq<Unit>, u: Unit, visit: seq<real>)
    ensures Sum(Visits(targets, u, visit)) == Times(multiset(targets)[u], Sum(visit))
  {
    if targets != [] {
      var init := targets[..|targets| - 1];
      var last := targets[|targets| - 1];
      assert targets == init + [last];
      var m: multiset<Unit> := multiset(init);
      var before := m[u];
      VisitsSum(init, u, visit);
      if last == u {
        assert multiset(targets)[u] == before + 1;
        SumConcat(Visits(init, u, visit), visit);
        assert Times(before + 1, Sum(visit)) == Times(before, Sum(visit)) + Sum(visit);
      } else {
        assert multiset(targets)[u] == before;
        assert Visits(targets, u, visit) == Visits(init, u, visit) + [];
        assert Visits(init, u, visit) + [] == Visits(init, u, visit);
      }
    }
  }

  /** Non-negative visits route only non-negative amounts. */
  lemma {:induction false} VisitsNonNegative(targets: seq<Unit>, u: Unit, visit: seq<real>)
    requires NonNegative(visit)
    ensures NonNegative(Visits(targets, u, visit))
  {
    if targets != [] {
      var init := targets[..|targets| - 1];
      VisitsNonNegative(init, u, visit);
      NonNegativeConcat(Visits(init, u, visit), if targets[|targets| - 1] == u then visit else []);
    }
  }

  /** With non-negative damages, a unit ends at max(0, HP - times selected x one visit's total). */
  lemma HpAfterVisits(hp: real, targets: seq<Unit>, u: Unit, visit: seq<real>)
    requires hp >= 0.0 && NonNegative(visit)
    ensures ApplyHits(hp, Visits(targets, u, visit)) == DamagedHp(hp, Times(multiset(targets)[u], Sum(visit)))
  {
    VisitsSum(targets, u, visit);
    VisitsNonNegative(targets, u, visit);
    HitsAccumulate(hp, Visits(targets, u, visit));
  }

  /** A unit that was not selected, or a skill whose effects deal nothing, leaves HP as it was. */
  lemma {:induction false} NothingRoutedNoChange(hp: real, attacker: Stats, targets: seq<Unit>, u: Unit, effects: seq<SkillEffect>)
    requires u !in targets || forall i :: 0 <= i < |effects| ==> !Deals(effects[i])
    ensures RoutedDamages(attacker, targets, u, effects) == []
    ensures ApplyHits(hp, RoutedDamages(attacker, targets, u, effects)) == hp
  {
    if targets != [] {
      var init := targets[..|targets| - 1];
      assert targets == init + [targets[|targets| - 1]];
      NothingRoutedNoChange(hp, attacker, init, u, effects);
      if u in targets {
        NoDealingEffects(attacker, u.stats, effects);
      }
    }
  }

  lemma {:induction false} NoDealingEffects(attacker: Stats, defender: Stats, effects: seq<SkillEffect>)
    requires forall i :: 0 <= i < |effects| ==> !Deals(effects[i])
    ensures VisitDamages(attacker, defender, effects) == []
  {
    if effects != [] {
      NoDealingEffects(attacker, defender, effects[..|effects| - 1]);
    }
  }

  /** Apollo's skill 1 deals exactly one formula hit per visit; its debuff effect deals nothing. */
  lemma SkillOneVisit(attacker: Stats, defender: Stats)
    ensures VisitDamages(attacker, defender, Apollo.SkillOne.effects) == [Apollo.SkillOneDamage(attacker)]
  {
    var effects := Apollo.SkillOne.effects;
    assert effects[..1][..0] == [];
    assert effects[..|effects| - 1] == effects[..1];
  }

  /** A visit of one hit `d`, taken once per selection of `u`. */
  lemma HpAfterSingleHitVisits(hp: real, targets: seq<Unit>, u: Unit, d: real)
    requires hp >= 0.0 && d >= 0.0
    ensures ApplyHits(hp, Visits(targets, u, [d])) == DamagedHp(hp, Times(multiset(targets)[u], d))
  {
    HpAfterVisits(hp, targets, u, [d]);
    assert Sum([d]) == d by {
      assert [d][..0] == [];
    }
  }

  /**
   * Apollo's skill 1 against two living enemies: the first takes one hit per
   * draw below 1/2, the second the rest of the nine, and each ends at
   * max(0, HP - its hits x the skill's amount).
   */
  lemma SkillOneOnTwoEnemies(attacker: Stats, e1: Unit, e2: Unit, draws: seq<real>)
    requires Apollo.ValidDraws(draws) && e1 != e2 && e1.IsAlive() && e2.IsAlive()
    requires attacker.attackMax >= 0.0 && attacker.agility >= 0.0
    ensures var ts := Apollo.SkillOneSelectTargets([e1, e2], draws);
            var d := Apollo.SkillOneDamage(attacker);
            var low := Apollo.CountBelow(draws, 0.5);
            && ApplyHits(e1.currentHp, RoutedDamages(attacker, ts, e1, Apollo.SkillOne.effects))
               == DamagedHp(e1.currentHp, Times(low, d))
            && ApplyHits(e2.currentHp, RoutedDamages(attacker, ts, e2, Apollo.SkillOne.effects))
               == DamagedHp(e2.currentHp, Times(9 - low, d))
  {
    var ts := Apollo.SkillOneSelectTargets([e1, e2], draws);
    var d := Apollo.SkillOneDamage(attacker);
    Apollo.SkillOneSplitsNineHits(e1, e2, draws);
    SkillOneVisit(attacker, e1.stats);
    SkillOneVisit(attacker, e2.stats);
    HpAfterSingleHitVisits(e1.currentHp, ts, e1, d);
    HpAfterSingleHitVisits(e2.currentHp, ts, e2, d);
  }

  /** Applying two runs of hits in a row is applying their concatenation. */
  lemma {:induction false} ApplyHitsConcat(hp: real, xs: seq<real>, ys: seq<real>)
    ensures ApplyHits(ApplyHits(hp, xs), ys) == ApplyHits(hp, xs + ys)
  {
    if ys == [] {
      assert xs + ys == xs;
    } else {
      assert (xs + ys)[..|xs + ys| - 1] == xs + ys[..|ys| - 1];
      ApplyHitsConcat(hp, xs, ys[..|ys| - 1]);
    }
  }

  /** One more selected target adds one visit to that target's hits and nothing to anyone else's. */
  lemma RoutedExtend(attacker: Stats, prefix: seq<Unit>, t: Unit, u: Unit, effects: seq<SkillEffect>)
    ensures RoutedDamages(attacker, prefix + [t], u, effects)
         == RoutedDamages(attacker, prefix, u, effects) + (if t == u then VisitDamages(attacker, u.stats, effects) else [])
  {
    assert (prefix + [t])[..|prefix|] == prefix;
  }

  /** Extending the effects by one adds that effect's amount, if it deals any, at the end of the visit. */
  lemma VisitDamagesStep(attacker: Stats, defender: Stats, effects: seq<SkillEffect>, j: nat)
    requires j < |effects|
    ensures VisitDamages(attacker, defender, effects[..j + 1])
         == VisitDamages(attacker, defender, effects[..j])
            + (if Deals(effects[j]) then [effects[j].formula.value(attacker, defender)] else [])
  {
    assert effects[..j + 1][..j] == effects[..j];
  }

  /** One more hit at the end goes through the clamp once more. */
  lemma ApplyHitsSnoc(hp: real, ds: seq<real>, d: real)
    ensures ApplyHits(hp, ds + [d]) == DamagedHp(ApplyHits(hp, ds), d)
  {
    assert (ds + [d])[..|ds|] == ds;
  }

  /** One visit of `target`: every effect in order, each dealing one its formula's amount through `TakeDamage`. */
  method VisitTarget(attacker: Unit, target: Unit, effects: seq<SkillEffect>)
    modifies target`currentHp
    ensures target.currentHp == ApplyHits(old(target.currentHp), VisitDamages(attacker.stats, target.stats, effects))
  {
    var j := 0;
    while j < |effects|
      invariant 0 <= j <= |effects|
      invariant target.currentHp == ApplyHits(old(target.currentHp), VisitDamages(attacker.stats, target.stats, effects[..j]))
    {
      var effect := effects[j];
      ghost var before := VisitDamages(attacker.stats, target.stats, effects[..j]);
      VisitDamagesStep(attacker.stats, target.stats, effects, j);
      if effect.kind == Damage && effect.formula.Some? {
        if effect.condition.Some? {
          // the condition's answer only selects a log line
          var conditionMet := Apollo.EvalCondition(effect.condition.value, attacker, target);
        }
        var dmg := effect.formula.value(attacker.stats, target.stats);
        target.TakeDamage(dmg);
        ApplyHitsSnoc(old(target.currentHp), before, dmg);
      } else {
        assert before + [] == before;
      }
      j := j + 1;
    }
    assert effects[..|effects|] == effects;
  }

  /** Step 3 of `executeSkill`: every effect against every selected target, duplicates included. */
  method HitTargets(attacker: Unit, targets: seq<Unit>, enemies: seq<Unit>, effects: seq<SkillEffect>)
    requires forall i :: 0 <= i < |targets| ==> targets[i] in enemies
    modifies enemies`currentHp
    ensures forall u :: u in enemies ==>
              u.currentHp == ApplyHits(old(u.currentHp), RoutedDamages(attacker.stats, targets, u, effects))
  {
    var i := 0;
    while i < |targets|
      invariant 0 <= i <= |targets|
      invariant forall u :: u in enemies ==>
                  u.currentHp == ApplyHits(old(u.currentHp), RoutedDamages(attacker.stats, targets[..i], u, effects))
    {
      var target := targets[i];
      label BeforeVisit:
      VisitTarget(attacker, target, effects);
      assert targets[..i + 1] == targets[..i] + [target];
      forall u | u in enemies
        ensures u.currentHp == ApplyHits(old(u.currentHp), RoutedDamages(attacker.stats, targets[..i + 1], u, effects))
      {
        var routed := RoutedDamages(attacker.stats, targets[..i], u, effects);
        assert old@BeforeVisit(u.currentHp) == ApplyHits(old(u.currentHp), routed);
        RoutedExtend(attacker.stats, targets[..i], target, u, effects);
        if u == target {
          var visit := VisitDamages(attacker.stats, u.stats, effects);
          assert u.currentHp == ApplyHits(ApplyHits(old(u.currentHp), routed), visit);
          ApplyHitsConcat(old(u.currentHp), routed, visit);
        } else {
          assert u.currentHp == old@BeforeVisit(u.currentHp);
          assert routed + [] == routed;
        }
      }
      i := i + 1;
    }
    assert targets[..|targets|] == targets;
  }

  /**
   * `executeSkill`: pre-skill action, target selection on the resulting state,
   * then the hits. An index outside the skill list makes `executeSkill` throw
   * before anything changes (reading `skill.id` of `undefined`); `thrown`
   * reports that outcome.
   */
  method ExecuteSkill(charDef: CharacterDef, skillIndex: int, ctx: BattleContext, draws: seq<real>) returns (thrown: bool)
    requires 0 <= skillIndex < |charDef.activeSkills| ==>
               Apollo.DrawsSuffice(charDef.activeSkills[skillIndex].selectTargets, draws)
    modifies ctx.attacker`buffs, ctx.enemies`currentHp
    ensures thrown <==> !(0 <= skillIndex < |charDef.activeSkills|)
    ensures thrown ==> ctx.attacker.buffs == old(ctx.attacker.buffs)
    ensures thrown ==> forall u :: u in ctx.enemies ==> u.currentHp == old(u.currentHp)
    ensures !thrown ==>
              ctx.attacker.buffs
              == Apollo.PreActionBuffs(charDef.activeSkills[skillIndex].preSkillActions, old(ctx.attacker.buffs))
    ensures !thrown ==> forall u :: u in ctx.enemies ==>
              u.currentHp == ApplyHits(old(u.currentHp), RoutedDamages(ctx.attacker.stats,
                old(Apollo.SelectTargets(charDef.activeSkills[skillIndex].selectTargets, ctx.enemies, draws)),
                u, charDef.activeSkills[skillIndex].effects))
  {
    if !(0 <= skillIndex < |charDef.activeSkills|) {
      return true;
    }
    var skill := charDef.activeSkills[skillIndex];

    // 1. pre-skill action
    if skill.preSkillActions.Some? {
      Apollo.SkillOnePreActions(ctx);
    }

    // 2. target selection; selection reads HP alone and the pre-skill action changed none
    var targets := Apollo.SelectTargets(skill.selectTargets, ctx.enemies, draws);

    // 3. every effect against every target
    HitTargets(ctx.attacker, targets, ctx.enemies, skill.effects);
    return false;
  }
}
