/** Entities, cells, directions, upgrades and the meta-progression record of the
    game core (src/core/types.ts). */
module Types {

  datatype Option<+T> = None | Some(value: T)

  /** The five entity tags (`EntityType`). */
  datatype EntityType = PLAYER | MONSTER | BOSS | XP | POTION

  /** The seven hook points an upgrade can be attached to (`Upgrade.trigger`). */
  datatype Trigger =
    | OnMove | OnKill | OnCollectXp | Passive | OnCombatStart | OnLevelUp | OnNewEntity

  /** The effect of a catalog upgrade, named by a tag instead of held as a closure.
      Upgrades.ApplyEffect gives each tag its meaning. */
  datatype Effect = PowerBoost | HealingRoots

  /** An immutable catalog entry. */
  datatype Upgrade = Upgrade(
    id: string,
    name: string,
    description: string,
    trigger: Trigger,
    effect: Effect,
    iconPath: Option<string>)

  /** A unit step on the board: x grows to the right, y grows downwards. */
  datatype Direction = Direction(dx: int, dy: int)

  /** A board coordinate. */
  datatype Pos = Pos(x: int, y: int)

  /** The stats of an entity as static data; a zone's boss is described by
      one (a module constant cannot hold an allocated `Entity`). */
  datatype EntityTemplate = EntityTemplate(
    kind: EntityType,
    hp: int,
    maxHp: Option<int>,
    atk: int,
    armor: int)

  /** Static per-zone encounter data. */
  datatype Zone = Zone(
    id: string,
    name: string,
    movesToBoss: int,
    boss: EntityTemplate,
    baseMonsterHp: int,
    baseMonsterAtk: int)

  /** Stats bought between runs; they seed the player of a new run. */
  datatype PermanentStats = PermanentStats(
    baseHp: int,
    baseAtk: int,
    baseArmor: int,
    baseHealBonus: int)

  /** The persisted meta-progression record: permanent stats and best
      progress per zone id. */
  datatype MetaData = MetaData(permanentStats: PermanentStats, zones: map<string, int>)

  /** A board occupant. The core writes `hp`, `atk`, `xp` and `upgrades` in
      place; the tag and the remaining stats are never written by it, so they
      are constants here. Absent optional fields are `None`. */
  class Entity {
    const kind: EntityType
    var hp: int
    var atk: int
    const armor: int
    const level: Option<int>
    var xp: Option<int>
    const maxHp: Option<int>
    const bonusHeal: Option<int>
    var upgrades: Option<seq<Upgrade>>

    constructor (kind: EntityType, hp: int, atk: int, armor: int,
                 level: Option<int>, xp: Option<int>, maxHp: Option<int>,
                 bonusHeal: Option<int>, upgrades: Option<seq<Upgrade>>)
      ensures this.kind == kind && this.hp == hp && this.atk == atk && this.armor == armor
      ensures this.level == level && this.xp == xp && this.maxHp == maxHp
      ensures this.bonusHeal == bonusHeal && this.upgrades == upgrades
    {
      this.kind := kind;
      this.hp := hp;
      this.atk := atk;
      this.armor := armor;
      this.level := level;
      this.xp := xp;
      this.maxHp := maxHp;
      this.bonusHeal := bonusHeal;
      this.upgrades := upgrades;
    }
  }

  /** A board cell: an entity or empty (`null`). */
  type Cell = Entity?

  /** The value `xp || 0` takes: an absent experience counter reads as 0. */
  function XpOrZero(xp: Option<int>): int {
    match xp
    case None => 0
    case Some(v) => v
  }
}
