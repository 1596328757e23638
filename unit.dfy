/**
 * A battle participant: its stats, its current HP with the clamped damage and
 * heal operations, its buff table, and the living-unit filter and random-target
 * utility built on them.
 */
module Units {
  import opened Types

  /** HP after taking `amount`: the difference, floored at zero. */
  function DamagedHp(hp: real, amount: real): (r: real)
    ensures r >= 0.0 && r >= hp - amount
    ensures r == hp - amount || r == 0.0
  {
    if hp - amount < 0.0 then 0.0 else hp - amount
  }

  /** HP after healing `amount`: the sum, capped at `maxHp`. */
  function HealedHp(hp: real, amount: real, maxHp: real): (r: real)
    ensures r <= maxHp && r <= hp + amount
    ensures r == hp + amount || r == maxHp
  {
    if hp + amount > maxHp then maxHp else hp + amount
  }

  /** A non-negative hit keeps an in-range HP in range and never raises it. */
  lemma DamageKeepsHpInRange(hp: real, amount: real, maxHp: real)
    requires amount >= 0.0 && 0.0 <= hp <= maxHp
    ensures 0.0 <= DamagedHp(hp, amount) <= hp <= maxHp
  {
  }

  /** A non-negative heal keeps an in-range HP in range and never lowers it. */
  lemma HealKeepsHpInRange(hp: real, amount: real, maxHp: real)
    requires amount >= 0.0 && 0.0 <= hp <= maxHp
    ensures 0.0 <= hp <= HealedHp(hp, amount, maxHp) <= maxHp
  {
  }

  /** Healing a unit already at full HP leaves its HP where it is. */
  lemma HealAtFullHpIsNoOp(maxHp: real, amount: real)
    requires amount >= 0.0
    ensures HealedHp(maxHp, amount, maxHp) == maxHp
  {
  }

  /** Two non-negative hits in a row land where one hit of their sum lands. */
  lemma DamageComposes(hp: real, a: real, b: real)
    requires a >= 0.0 && b >= 0.0
    ensures DamagedHp(DamagedHp(hp, a), b) == DamagedHp(hp, a + b)
  {
  }

  /** A hit leaves a unit alive exactly when it is smaller than the unit's HP. */
  lemma AliveAfterHit(hp: real, amount: real)
    ensures DamagedHp(hp, amount) > 0.0 <==> amount < hp
  {
  }

  /** `heal` has no liveness check: any positive heal brings a unit at 0 HP back. */
  lemma HealRevives(hp: real, amount: real, maxHp: real)
    requires hp >= 0.0 && amount > 0.0 && maxHp > 0.0
    ensures HealedHp(hp, amount, maxHp) > 0.0
  {
  }

  class Unit {
    const name: string
    const stats: Stats
    var currentHp: real
    var buffs: map<BuffId, BuffEffect>

    /** Copies every base stat and starts at full HP; the `hp` base value is not used. */
    constructor (name: string, baseStats: Stats)
      ensures this.name == name
      ensures forall key :: GetStat(key) == baseStats.Get(key)
      ensures currentHp == baseStats.maxHp
      ensures buffs == map[]
    {
      this.name := name;
      stats := baseStats;
      currentHp := baseStats.maxHp;
      buffs := map[];
    }

    /** The base stat; buffs are not folded in, and nothing the unit's methods change can alter it. */
    function GetStat(key: StatKey): (v: real)
      ensures v == stats.Get(key)
    {
      stats.Get(key)
    }

    predicate IsAlive()
      reads this`currentHp
    {
      currentHp > 0.0
    }

    predicate HasBuff(id: BuffId)
      reads this`buffs
    {
      id in buffs
    }

    method TakeDamage(amount: real)
      modifies this`currentHp
      ensures currentHp == DamagedHp(old(currentHp), amount)
      ensures amount >= 0.0 && 0.0 <= old(currentHp) <= GetStat(MaxHp) ==>
                0.0 <= currentHp <= old(currentHp) <= GetStat(MaxHp)
      ensures IsAlive() <==> amount < old(currentHp)
    {
      currentHp := currentHp - amount;
      if currentHp < 0.0 {
        currentHp := 0.0;
      }
      if amount >= 0.0 && 0.0 <= old(currentHp) <= GetStat(MaxHp) {
        DamageKeepsHpInRange(old(currentHp), amount, GetStat(MaxHp));
      }
    }

    method Heal(amount: real)
      modifies this`currentHp
      ensures currentHp == HealedHp(old(currentHp), amount, GetStat(MaxHp))
      ensures amount >= 0.0 && old(currentHp) == GetStat(MaxHp) ==> currentHp == old(currentHp)
      ensures old(currentHp) >= 0.0 && amount > 0.0 && GetStat(MaxHp) > 0.0 ==> IsAlive()
    {
      currentHp := currentHp + amount;
      if currentHp > GetStat(MaxHp) {
        currentHp := GetStat(MaxHp);
      }
    }

    /** Sets the entry for `b.id`: an entry with that id is replaced, never stacked. */
    method AddBuff(b: BuffEffect)
      modifies this`buffs
      ensures buffs == old(buffs)[b.id := b]
      ensures HasBuff(b.id) && buffs[b.id] == b
      ensures buffs.Keys == old(buffs.Keys) + {b.id}
      ensures forall id :: id in old(buffs) && id != b.id ==> buffs[id] == old(buffs)[id]
      ensures |buffs| == if b.id in old(buffs) then |old(buffs)| else |old(buffs)| + 1
      ensures forall id :: HasBuff(id) <==> id == b.id || id in old(buffs)
    {
      buffs := buffs[b.id := b];
    }

    /** Deletes the entry for `id`, whatever the buff's removable flag; absent ids are a no-op. */
    method RemoveBuff(id: BuffId)
      modifies this`buffs
      ensures !HasBuff(id)
      ensures buffs == old(buffs) - {id}
      ensures id !in old(buffs) ==> buffs == old(buffs)
      ensures forall other :: HasBuff(other) <==> other != id && other in old(buffs)
    {
      buffs := buffs - {id};
    }
  }

  /** `units.filter(u => u.isAlive())`. */
  function Living(units: seq<Unit>): (r: seq<Unit>)
    reads units`currentHp
    ensures |r| <= |units|
    ensures forall u :: u in r ==> u in units && u.IsAlive()
    ensures forall i :: 0 <= i < |units| && units[i].IsAlive() ==> units[i] in r
  {
    if units == [] then []
    else
      var rest := Living(units[1..]);
      assert units == [units[0]] + units[1..];
      assert forall i :: 1 <= i < |units| ==> units[i] == units[1..][i - 1];
      if units[0].IsAlive() then [units[0]] + rest else rest
  }

  predicate NoDuplicates<T(==)>(s: seq<T>) {
    forall i, j :: 0 <= i < j < |s| ==> s[i] != s[j]
  }

  /** A sequence is free of duplicates exactly when no element occurs twice. */
  lemma {:induction false} NoDuplicatesByCount<T>(s: seq<T>)
    ensures NoDuplicates(s) <==> forall x :: multiset(s)[x] <= 1
  {
    if s != [] {
      NoDuplicatesByCount(s[1..]);
      assert s == [s[0]] + s[1..];
      if NoDuplicates(s) {
        assert s[0] !in s[1..] by {
          forall k | 0 <= k < |s[1..]| ensures s[1..][k] != s[0] {
            assert s[1..][k] == s[k + 1];
          }
        }
        assert NoDuplicates(s[1..]) by {
          forall i, j | 0 <= i < j < |s[1..]| ensures s[1..][i] != s[1..][j] {
            assert s[1..][i] == s[i + 1] && s[1..][j] == s[j + 1];
          }
        }
      }
      if forall x :: multiset(s)[x] <= 1 {
        assert forall x :: multiset(s[1..])[x] <= multiset(s)[x];
        assert s[0] !in s[1..] by {
          assert multiset(s)[s[0]] == 1 + multiset(s[1..])[s[0]];
        }
        forall i, j | 0 <= i < j < |s| ensures s[i] != s[j] {
          if i == 0 {
            assert s[j] == s[1..][j - 1];
          } else {
            assert s[i] == s[1..][i - 1] && s[j] == s[1..][j - 1];
          }
        }
      }
    }
  }

  /** The filter takes each unit at most as often as the roster holds it. */
  lemma {:induction false} LivingIsSubMultiset(units: seq<Unit>)
    ensures multiset(Living(units)) <= multiset(units)
  {
    if units != [] {
      var rest := Living(units[1..]);
      LivingIsSubMultiset(units[1..]);
      assert units == [units[0]] + units[1..];
      assert multiset(units) == multiset{units[0]} + multiset(units[1..]);
      if units[0].IsAlive() {
        assert Living(units) == [units[0]] + rest;
        assert multiset(Living(units)) == multiset{units[0]} + multiset(rest);
      } else {
        assert Living(units) == rest;
      }
    }
  }

  /** The filter keeps a roster free of duplicates. */
  lemma LivingKeepsNoDuplicates(units: seq<Unit>)
    ensures NoDuplicates(units) ==> NoDuplicates(Living(units))
  {
    NoDuplicatesByCount(units);
    NoDuplicatesByCount(Living(units));
    LivingIsSubMultiset(units);
    assert forall x :: multiset(Living(units))[x] <= multiset(units)[x];
  }

  /** The filter keeps roster order: filtering a concatenation concatenates the filtered parts. */
  lemma {:induction false} LivingConcat(a: seq<Unit>, b: seq<Unit>)
    ensures Living(a + b) == Living(a) + Living(b)
  {
    if a == [] {
      assert a + b == b;
    } else {
      assert (a + b)[0] == a[0];
      assert (a + b)[1..] == a[1..] + b;
      LivingConcat(a[1..], b);
    }
  }

  /** A one-unit roster filters to itself exactly when that unit is alive. */
  lemma LivingSingleton(u: Unit)
    ensures Living([u]) == if u.IsAlive() then [u] else []
  {
    assert [u][1..] == [];
  }

  /** The `k`-th living unit sits at some roster position `p`, and the living
      units before `p` are exactly the first `k` of the filter. */
  lemma {:induction false} LivingPosition(units: seq<Unit>, k: nat) returns (p: nat)
    requires k < |Living(units)|
    ensures p < |units| && units[p] == Living(units)[k]
    ensures Living(units[..p]) == Living(units)[..k]
  {
    var head, tail := units[0], units[1..];
    assert units == [head] + tail;
    LivingConcat([head], tail);
    LivingSingleton(head);
    if head.IsAlive() && k == 0 {
      p := 0;
      assert units[..0] == [];
    } else {
      var skip := if head.IsAlive() then 1 else 0;
      var q := LivingPosition(tail, k - skip);
      p := q + 1;
      assert units[..p] == [head] + tail[..q];
      LivingConcat([head], tail[..q]);
      assert Living(units)[..k] == Living([head]) + Living(tail)[..k - skip];
    }
  }

  /** The end index `slice(0, count)` uses on an array of length `len`. */
  function SliceEnd(len: nat, count: int): (e: nat)
    ensures e <= len
    ensures count >= 0 ==> e == if count < len then count else len
    ensures count < 0 ==> e == if len + count > 0 then len + count else 0
  {
    if count < 0 then (if len + count > 0 then len + count else 0)
    else if count < len then count
    else len
  }

  /** A prefix of a rearrangement of `s` takes each element at most as often as `s` holds it, and all of `s` when it is whole. */
  lemma {:induction false} PrefixOfRearrangement<T>(s: seq<T>, shuffled: seq<T>, e: nat)
    requires multiset(shuffled) == multiset(s) && e <= |s|
    ensures |shuffled| == |s|
    ensures multiset(shuffled[..e]) <= multiset(s)
    ensures e == |s| ==> multiset(shuffled[..e]) == multiset(s)
    ensures forall i :: 0 <= i < e ==> shuffled[i] in s
    ensures NoDuplicates(s) ==> NoDuplicates(shuffled[..e])
  {
    assert |shuffled| == |multiset(shuffled)| == |multiset(s)| == |s|;
    assert shuffled == shuffled[..e] + shuffled[e..];
    assert multiset(shuffled) == multiset(shuffled[..e]) + multiset(shuffled[e..]);
    forall i | 0 <= i < e ensures shuffled[i] in s {
      assert shuffled[..e][i] == shuffled[i];
      assert shuffled[i] in multiset(shuffled[..e]);
      assert shuffled[i] in multiset(s);
    }
    NoDuplicatesByCount(s);
    NoDuplicatesByCount(shuffled[..e]);
  }

  /**
   * `Unit.getRandomTargets`: filter the living, take the first `count` of
   * their rearrangement. `shuffled` is what the random-comparator sort left
   * the living units in; whatever the comparator answers, the sort only
   * rearranges, so it holds the living units as often as they occur.
   */
  function GetRandomTargets(units: seq<Unit>, count: int, shuffled: seq<Unit>): (r: seq<Unit>)
    reads units`currentHp
    requires multiset(shuffled) == multiset(Living(units))
    ensures |r| == SliceEnd(|Living(units)|, count)
    ensures count >= 0 ==> |r| == if count < |Living(units)| then count else |Living(units)|
    ensures multiset(r) <= multiset(Living(units))
    ensures count >= |Living(units)| ==> multiset(r) == multiset(Living(units))
    ensures forall i :: 0 <= i < |r| ==> r[i] in units && r[i].IsAlive()
    ensures NoDuplicates(units) ==> NoDuplicates(r)
  {
    var living := Living(units);
    LivingKeepsNoDuplicates(units);
    var e := SliceEnd(|living|, count);
    PrefixOfRearrangement(living, shuffled, e);
    shuffled[..e]
  }

  /**
   * The shared state a skill runs against: turn number, acting unit and the
   * two rosters. The context's log sink is not part of this model.
   */
  datatype BattleContext = BattleContext(
    turn: int,
    attacker: Unit,
    allies: seq<Unit>,
    enemies: seq<Unit>)
}
