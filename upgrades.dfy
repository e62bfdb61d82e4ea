/** The upgrade catalog (src/core/upgrades.ts) and the meaning of its effect tags. */
module Upgrades {
  import opened Types

  const POWER_BOOST: Upgrade := Upgrade(
    "power_boost",
    "Sunflower strength",
    "Increase strength by +1",
    Passive,
    PowerBoost,
    None)

  const HEALING_ROOTS: Upgrade := Upgrade(
    "healing_roots",
    "Healing roots",
    "Heal 2 HP on each kill",
    OnKill,
    HealingRoots,
    Some("/assets/upgrades/default_upgrade.png"))

  const UPGRADE_CATALOG: seq<Upgrade> := [POWER_BOOST, HEALING_ROOTS]

  /** Catalog ids are unique, and each entry carries its own trigger and
      effect tag. */
  lemma CatalogWellFormed()
    ensures forall i, j :: 0 <= i < j < |UPGRADE_CATALOG| ==> UPGRADE_CATALOG[i].id != UPGRADE_CATALOG[j].id
    ensures forall i, j :: 0 <= i < j < |UPGRADE_CATALOG| ==> UPGRADE_CATALOG[i].effect != UPGRADE_CATALOG[j].effect
    ensures |UPGRADE_CATALOG| == 2
    ensures POWER_BOOST.trigger == Passive && POWER_BOOST.effect == PowerBoost
    ensures HEALING_ROOTS.trigger == OnKill && HEALING_ROOTS.effect == HealingRoots
  {
  }

  /** The cap `maxHp || 10`: an absent or zero maximum reads as 10. */
  function HealCap(maxHp: Option<int>): (r: int)
    ensures r != 0
    ensures maxHp.Some? && maxHp.value != 0 ==> r == maxHp.value
    ensures maxHp.None? || maxHp.value == 0 ==> r == 10
  {
    if maxHp.Some? && maxHp.value != 0 then maxHp.value else 10
  }

  /** The hp after healing roots fires: two more, but never above the cap. */
  function HealedHp(hp: int, maxHp: Option<int>): (r: int)
    ensures r <= HealCap(maxHp)
    ensures r <= hp + 2
    ensures r == HealCap(maxHp) || r == hp + 2
    ensures hp <= HealCap(maxHp) ==> hp <= r
  {
    if HealCap(maxHp) <= hp + 2 then HealCap(maxHp) else hp + 2
  }

  /** Runs an upgrade's effect on the player: power boost adds 1 atk, healing
      roots heals by HealedHp. Nothing else of the player changes. */
  method ApplyEffect(effect: Effect, player: Entity)
    modifies player
    ensures effect == PowerBoost ==> player.atk == old(player.atk) + 1 && player.hp == old(player.hp)
    ensures effect == HealingRoots ==>
      player.hp == HealedHp(old(player.hp), player.maxHp) && player.atk == old(player.atk)
    ensures player.xp == old(player.xp) && player.upgrades == old(player.upgrades)
  {
    match effect
    case PowerBoost =>
      player.atk := player.atk + 1;
    case HealingRoots =>
      player.hp := HealedHp(player.hp, player.maxHp);
  }
}
