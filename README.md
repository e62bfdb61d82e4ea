# Sunflowers vs Shadows: a verified model of the game rules

This project models the rules core of *Sunflowers vs Shadows*, a grid roguelike in the browser.
A sunflower (the player) moves on a 4x4 board. It bump-attacks monsters, collects XP pickups,
takes upgrades and survives a boss's pulse. Permanent stats and per-zone progress are kept
between runs. The model is written in Dafny and covers the files under `src/core`:

- `types.dfy` (`Types`) holds the data model of `src/core/types.ts`.
  - An entity is a class, because the core writes its `hp`, `atk`, `xp` and `upgrades` in place.
  - A cell is a possibly-null entity reference.
  - Directions, positions, upgrades, zones and the meta record are values.
- `grid.dfy` (`Board`) models the `Grid` class over a 4x4 `array2` of cells.
  - Everything about the board's shape is stated on `board`, the 16 cells in row-major order
    (y outer, x inner). `Valid()` ties it to the array.
  - `getEmptyCells` and `getEntities` are loops proved equal to the pure scans `EmptyCellsOf`
    and `EntitiesOf`.
  - `movePlayer` is proved against the case split `MoveCaseOf` and the per-case outcome
    `Resolved`.
- `game_engine.dfy` (`Engine`) models the key handler and `spawnRandomEntity` of `GameEngine`.
  - The random cell index and the monster-or-XP coin are parameters.
- `upgrades.dfy` (`Upgrades`) models the two catalog entries.
  - Their effects are a tag, and `ApplyEffect` runs a tag on the player.
- `upgrade_handler.dfy` (`UpgradeHandling`) models the `UpgradeHandler` class: roll, add,
  remove and query.
  - The random indexes of the roll loop are a supplied sequence.
  - The roll loop looks its indexes up in the whole catalog, although it draws them below the
    number of *unheld* entries. The model keeps this behaviour and proves what it leads to:
    - `RollDrawsFromCatalogPrefix`: every offered entry comes from the first |unheld| catalog
      entries.
    - `RollCanOfferHeldUpgrade`: on a four-entry catalog, the loop can offer an upgrade the
      player already holds.
  - With the real two-entry catalog the loop is never reached.
- `constants.dfy` (`Constants`) holds the direction vectors, the `meadow-1` zone, and the board
  logic of the boss's `VOID_PULSE`.
  - `Preview` records the danger zone.
  - `Execute` damages a player next to the boss.
- `meta_manager.dfy` (`Meta`) models `MetaManager` over an abstract store.
  - The store maps a key to a record that parses, or to text that does not.

## Model

| member | source | states |
|---|---|---|
| Types.Entity.constructor | src/core/types.ts:12-22 | every field of a new entity holds the given value; absent optional fields are `None` |
| Board.BoundsMatchCells | src/core/Grid.ts:44-46 | the in-bounds coordinates are exactly the positions of the 16 cells |
| Board.Grid.IsWithinBounds | src/core/Grid.ts:44-46 | holds exactly when 0 <= x < 4 and 0 <= y < 4 |
| Board.Grid.GetValue | src/core/Grid.ts:48-51 | off the board the result is null; on the board it is the occupant of (x, y) |
| Board.Grid.SetValue | src/core/Grid.ts:53-56 | on the board exactly cell (x, y) changes, to the value; off the board nothing changes |
| Board.Grid.constructor | src/core/Grid.ts:14-28 | all 16 cells are empty; the new player has hp = maxHp = baseHp, atk = baseAtk, armor = baseArmor, bonusHeal = baseHealBonus, level 1, xp 0 and an empty upgrade list |
| Board.Grid.Init | src/core/Grid.ts:30-38 | a board with no empty cell is unchanged; otherwise the selected empty cell, and only it, now holds the player; a board with no player and room gets exactly one player |
| Board.Grid.GetEmptyCells | src/core/Grid.ts:58-68 | the nested loops return exactly the row-major scan of empty cells |
| Board.Grid.GetEntities | src/core/Grid.ts:70-80 | the nested loops return exactly the row-major scan of occupied cells with their occupants |
| Board.EmptyCellsOf | src/core/Grid.ts:58-68 | the row-major scan of empty cells, one entry per empty cell, so never longer than the board; EmptyCellsExact and EmptyCellsRowMajor state what it lists |
| Board.EntitiesOf | src/core/Grid.ts:70-80 | the row-major scan of occupied cells with their occupants, never longer than the board; EntitiesExact and EntitiesRowMajor state what it lists |
| Board.EmptyCellsExact | src/core/Grid.ts:58-68 | a position is listed exactly when it is on the board and its cell is empty |
| Board.EmptyCellsRowMajor | src/core/Grid.ts:58-68 | listed positions are on the board, in strictly increasing row-major order, so none repeats |
| Board.EntitiesExact | src/core/Grid.ts:70-80 | an (x, y, entity) entry is listed exactly when (x, y) is on the board and holds that entity |
| Board.EntitiesRowMajor | src/core/Grid.ts:70-80 | listed entries are on the board, in strictly increasing row-major order |
| Board.ScansPartition | src/core/Grid.ts:58-80 | the two scans partition the board: their lengths are the occupied count and the rest |
| Board.FindPlayer | src/core/Grid.ts:88-91 | a found entry is in the list and holds a player; none is found exactly when no entry holds a player |
| Board.FindPlayerFirst | src/core/Grid.ts:88-91 | the found entry is the first player entry: every entry before it is not a player |
| Board.PlayerEntryOnBoard | src/core/Grid.ts:88-92 | the found player entry sits on the board at its own cell; none is found exactly when no cell holds a player |
| Board.CountKindUpdate | src/core/Grid.ts:100-101 | writing one cell changes the count of cells with a given tag by what left and what arrived |
| Board.OccupiedUpdate | src/core/Grid.ts:100-101 | writing one cell changes the occupied count by what left and what arrived |
| Board.Relocate | src/core/Grid.ts:100-101 | the board after the pair of writes that empty the player's cell and put the player on the target: the target holds the player, the old cell is empty, every other cell is unchanged |
| Board.HoleMeansRoom | src/core/GameEngine.ts:59-60 | a board with an empty cell has fewer than 16 occupied cells |
| Board.CountKindZero | src/core/Grid.ts:88-92 | the count of cells with a tag is zero exactly when no cell holds that tag |
| Board.AtMostOneKindCell | src/core/constants.ts:74-76 | when at most one cell holds a tag, two cells holding it are the same cell |
| Board.RelocateCounts | src/core/Grid.ts:100-101 | moving the player onto a non-player cell keeps the player count; the occupied count drops by one exactly when the target was occupied |
| Board.Grid.MovePlayer | src/core/Grid.ts:82-145 | null exactly when there is no player, the target is off the board, or the target is neither empty, a monster nor XP; null changes no cell and no entity; otherwise the outcome is Resolved (below), and every entity other than the player and the target is unchanged; the player count never changes; the occupied count drops by one exactly on a kill or a pickup |
| Board.Grid.ResolveMove | src/core/Grid.ts:97-142 | empty target: the player moves, result (true, 0, target, PLAYER), stats unchanged. Monster: its hp becomes max(0, hp - player atk) and the player's max(0, hp - monster atk), with nothing else written; the player moves in exactly on a kill, and damageDealt is the player's atk. XP: xp rises by one (absent counts as 0) and the player takes the cell. BOSS or POTION: null and no change |
| Board.Grid.MoveOnto | src/core/Grid.ts:100-101 | the player's old cell becomes empty and the target holds the player; the player count is kept; the occupied count drops by one exactly when the target was occupied |
| Engine.KeyDirection | src/core/GameEngine.ts:33-40 | ArrowUp, ArrowDown, ArrowLeft and ArrowRight give exactly UP, DOWN, LEFT and RIGHT, each a unit step; every other key gives no direction |
| Engine.SpawnCell | src/core/GameEngine.ts:59-62 | the cell the random index selects is on the board and empty |
| Engine.SpawnStep | src/core/GameEngine.ts:58-67 | defines the board change of a spawn: none on a full board, otherwise exactly the selected empty cell receives a spawned entity |
| Engine.GameEngine.constructor | src/core/GameEngine.ts:10-13 | a new engine has an all-empty board and a fresh player with hp = maxHp = baseHp, atk = baseAtk, armor = baseArmor, bonusHeal = baseHealBonus, level 1, xp 0 and an empty upgrade list |
| Engine.GameEngine.Start | src/core/GameEngine.ts:15-21 | a board with no empty cell is unchanged; otherwise the selected empty cell, and only it, now holds the player; a board with no player and room gets exactly one player |
| Engine.GameEngine.SpawnRandomEntity | src/core/GameEngine.ts:58-67 | SpawnStep holds from the old board to the new one: a full board is unchanged; otherwise the selected empty cell, and only it, holds a fresh entity (MONSTER or XP by the coin, hp 5, atk 1, armor 0, nothing else set); the occupied count rises by one and the player count is kept |
| Engine.GameEngine.HandleKey | src/core/GameEngine.ts:31-56 | no result exactly for a non-arrow key or a move that is turned down, and then nothing changes; on a result, the move for the key's direction is Resolved from the old board to the board between move and spawn, with every other entity unchanged, and then SpawnStep holds from that board to the final one with a fresh entity, so a spawn follows every result, including a blocked bump; the player count is kept, and the occupied count after the move and the spawn is stated |
| Upgrades.CatalogWellFormed | src/core/upgrades.ts:3-23 | the catalog has two entries, with different ids and different effects; power boost is passive with the PowerBoost effect, healing roots fires on a kill with the HealingRoots effect |
| Upgrades.HealCap | src/core/upgrades.ts:20 | the cap is maxHp when present and non-zero, and 10 otherwise, so never 0 |
| Upgrades.HealedHp | src/core/upgrades.ts:19-21 | the healed hp is at most the cap (maxHp, or 10 when it is absent or 0) and at most hp + 2, and equals one of them; from hp at or below the cap it never falls |
| Upgrades.ApplyEffect | src/core/upgrades.ts:4-22 | power boost adds exactly 1 atk; healing roots sets hp to the healed value; no other field changes |
| UpgradeHandling.HasId | src/core/UpgradeHandler.ts:41-46 | holds exactly when some entry has the id |
| UpgradeHandling.UpgradeHandler.HasUpgrade | src/core/UpgradeHandler.ts:41-46 | holds exactly when the player has an upgrade list with an entry carrying the upgrade's id; false with no list |
| UpgradeHandling.UpgradeHandler.constructor | src/core/UpgradeHandler.ts:6-8 | the handler works on the given player |
| UpgradeHandling.UpgradeHandler.AddUpgrade | src/core/UpgradeHandler.ts:26-31 | the upgrade is appended after the existing entries, without a duplicate check, and a missing list is created; the player then has the upgrade |
| UpgradeHandling.WithoutId | src/core/UpgradeHandler.ts:35-37 | the filtered list has no entry with the id and is no longer than the original |
| UpgradeHandling.WithoutIdMembers | src/core/UpgradeHandler.ts:35-37 | filtering keeps exactly the entries with other ids |
| UpgradeHandling.WithoutIdAppend | src/core/UpgradeHandler.ts:35-37 | filtering distributes over concatenation, so kept entries keep their relative order |
| UpgradeHandling.WithoutIdAbsent | src/core/UpgradeHandler.ts:35-37 | a list with no entry for the id is left as it is |
| UpgradeHandling.WithoutIdIdempotent | src/core/UpgradeHandler.ts:33-39 | a second removal changes nothing |
| UpgradeHandling.UpgradeHandler.RemoveUpgrade | src/core/UpgradeHandler.ts:33-39 | a missing list stays missing; otherwise the list is filtered by id; afterwards the player does not have the upgrade |
| UpgradeHandling.AddThenRemove | src/core/UpgradeHandler.ts:26-39 | adding an upgrade and then removing it leaves the entries with other ids, in their old order |
| UpgradeHandling.Unheld | src/core/UpgradeHandler.ts:13 | the filtered catalog holds exactly the catalog entries the player does not hold |
| UpgradeHandling.Picks | src/core/UpgradeHandler.ts:18-19 | the k-th pick is the catalog entry at the k-th drawn index |
| UpgradeHandling.Gather | src/core/UpgradeHandler.ts:17-22 | defines the offer the drawing loop builds: each pick not yet offered is appended until three are offered; GatherShape, GatherSaturated and GatherThree state its properties |
| UpgradeHandling.GatherShape | src/core/UpgradeHandler.ts:17-22 | the offer has at most three entries, all different, each of them a pick; while it has fewer than three, every pick is in it |
| UpgradeHandling.GatherSaturated | src/core/UpgradeHandler.ts:17 | once three entries are offered, later draws change nothing |
| UpgradeHandling.GatherThree | src/core/UpgradeHandler.ts:17-22 | draws that hit three different entries give an offer of exactly three |
| UpgradeHandling.RollDrawsFromCatalogPrefix | src/core/UpgradeHandler.ts:18-20 | every offered entry is one of the first |unheld| catalog entries, held or not |
| UpgradeHandling.RollCanOfferHeldUpgrade | src/core/UpgradeHandler.ts:13-22 | with three entries unheld, the draws 0, 1, 2 offer an upgrade the player already holds |
| UpgradeHandling.UpgradeHandler.RollFrom | src/core/UpgradeHandler.ts:10-24 | fewer than three unheld entries: the offer is exactly those, in catalog order; otherwise it is what the loop gathers from the whole catalog; at most three entries, all from the catalog |
| UpgradeHandling.UpgradeHandler.RollThreeUpgrades | src/core/UpgradeHandler.ts:10-24 | with the real catalog the offer is exactly the unheld entries, and none of them is held |
| Constants.DirectionsAreUnitSteps | src/core/constants.ts:3-8 | each direction is a unit step; DOWN negates UP and RIGHT negates LEFT; the two axes differ |
| Constants.MeadowZoneData | src/core/constants.ts:10-30 | meadow-1 has 30 moves to the boss, a BOSS with hp = maxHp = 25, atk 2 and armor 0, and monsters with base hp 5 and atk 1; the pulse cooldown is 3 |
| Constants.Recorded | src/core/constants.ts:35-46 | defines the cells the dx-outer, dy-inner loops have recorded on reaching an offset; RecordedExact, RecordedShape and DangerZoneExact state what they are |
| Constants.RecordedExact | src/core/constants.ts:35-46 | up to a loop point, the cells recorded are exactly the in-bounds ring cells the loops have passed |
| Constants.RecordedShape | src/core/constants.ts:35-46 | the recorded cells are all different, and there is at most one per visited offset other than the boss's own |
| Constants.DangerZoneExact | src/core/constants.ts:31-47 | the danger zone is exactly the in-bounds cells of the ring of eight around the boss, the boss cell excluded, each once, at most eight |
| Constants.Preview | src/core/constants.ts:31-47 | the loops reset the list and then record the danger zone |
| Constants.Strike | src/core/constants.ts:61-77 | only a player on the cell (x, y) loses 5 hp, clamped at 0; other entities and other fields are unchanged |
| Constants.Execute | src/core/constants.ts:48-80 | the danger-zone list is left empty and no cell changes; a player loses 5 hp, clamped at 0, exactly when it stands on the ring around the boss; non-players, atk, xp and upgrades are unchanged |
| Meta.LoadFrom | src/core/MetaManager.ts:11-32 | a stored record that parses is returned; a missing or unparsable one gives the default record |
| Meta.DefaultRecord | src/core/MetaManager.ts:21-31 | the default record is baseHp 10, baseAtk 2, baseArmor 0, baseHealBonus 0, with zones {"meadow-1": 0}, and an empty store loads it |
| Meta.SaveThenLoad | src/core/MetaManager.ts:12-15 | saving a record and loading again gives that record, whatever the store held |
| Meta.MetaManager.constructor | src/core/MetaManager.ts:7-9 | the manager starts from the record its store loads |
| Meta.MetaManager.SaveMetaData | src/core/MetaManager.ts:34-36 | only the entry under the storage key changes, and a later load returns the live record |
| Meta.MetaManager.GetStats | src/core/MetaManager.ts:38-40 | the permanent stats of the live record |
| Meta.AddToStat | src/core/MetaManager.ts:46 | the named stat rises by exactly v and the other three are unchanged |
| Meta.MetaManager.UpdateStat | src/core/MetaManager.ts:42-48 | the named stat rises by exactly v; the other stats and all zones are unchanged; the record is saved |
| Meta.ZoneProgress | src/core/MetaManager.ts:51 | the stored value for the zone, or 0 when there is none |
| Meta.Improves | src/core/MetaManager.ts:55 | the score is stored exactly when the zone's progress (0 when absent) is 0 or lower than the score |
| Meta.MetaManager.GetZoneProgress | src/core/MetaManager.ts:50-52 | the stored value for the zone, or 0 when there is none |
| Meta.WithZoneProgress | src/core/MetaManager.ts:55-56 | the zone holds the score exactly when nothing (or 0) was stored or the score is higher, and its old value otherwise; other zones are untouched; a positive value is never lowered |
| Meta.ZoneProgressIdempotent | src/core/MetaManager.ts:54-59 | repeating the same progress update changes nothing more |
| Meta.ZoneProgressKeepsBest | src/core/MetaManager.ts:54-59 | after any sequence of updates, the zone holds at least every positive score it was given |
| Meta.MetaManager.SetZoneProgress | src/core/MetaManager.ts:54-59 | the zones become the updated table; the record is saved when the score improves on the zone, and nothing changes otherwise |

## Left out

- Rendering, sprites, tweens, popups and the danger-zone markers (`src/view`) are not modelled. Neither is the `window` key listener; `HandleKey` takes the key as a parameter.
- Randomness is passed in as parameters:
  - `Init` and `SpawnRandomEntity` take a `pick` that is reduced modulo the number of empty cells.
  - The monster-or-XP coin is a boolean; its 0.3 probability is not modelled.
  - The roll loop's indexes are a supplied sequence.
- UpgradeHandling.UpgradeHandler.RollFrom: when the supplied draws run out before three different entries are hit, fewer than three are offered. The source keeps drawing until it has three, a loop that ends only with probability 1. `GatherThree` states when three are reached.
- UpgradeHandling.UpgradeHandler.RollThreeUpgrades: passes no draws. With the two-entry catalog the drawing loop is never reached.
- Browser storage and JSON are modelled as a key-to-`Stored` map. A stored record that parses but has the wrong shape is not modelled.
- Meta.MetaManager.GetStats: returns the stats as a value. The source returns the live object, and a caller could write through that alias.
- Aliasing of upgrade lists is not modelled. `addUpgrade` pushes onto the existing array; the model assigns a new sequence to the field, with the same contents.
- Constants.Execute: requires at most one player cell on the board. This rules out a single player object placed on two cells, which the source would strike twice, and also two different player entities, each of which the source would strike once. The board's other operations keep the player count, and a new run has one player.
- Constants.Strike: requires at most one player cell on the board, for the same reason as `Constants.Execute`.
- The danger-zone markers are modelled as the list of their positions, returned by `Preview` and `Execute` instead of being stored on the game object.
- `GameEngine`'s constructor calls the `Grid` constructor without the permanent stats it requires. The model passes the stats explicitly.
- Upgrade triggers are never dispatched in the core, so effects are run only through `ApplyEffect`.
- Level-up, bosses on the board, boss timers, pause state and remaining moves have no code in the core, and are not modelled.
- An entity's `level`, `maxHp`, `armor` and `bonusHeal` are constants, because the core never writes them.
- Numbers are unbounded integers. Floating point, `NaN` and fractional values are not modelled, so JavaScript's falsy checks on numbers (`xp || 0`, `maxHp || 10`, `!zones[z]`) are written as "absent or 0".
