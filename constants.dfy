/** Static configuration and the boss's pulse action (src/core/constants.ts). */
module Constants {
  import opened Types
  import opened Board

  /** The four move directions, by name. */
  datatype Directions = Directions(UP: Direction, DOWN: Direction, LEFT: Direction, RIGHT: Direction)

  const DIRECTIONS: Directions := Directions(
    Direction(0, -1),
    Direction(0, 1),
    Direction(-1, 0),
    Direction(1, 0))

  const ZONES: map<string, Zone> := map[
    "meadow-1" := Zone(
      "meadow-1",
      "Meadow Zone",
      30,
      EntityTemplate(BOSS, 25, Some(25), 2, 0),
      5,
      1)
  ]

  /** A boss action's static data; its two phases are the methods
      `Preview` and `Execute` below. */
  datatype BossAction = BossAction(id: string, cooldown: int, description: string)

  const VOID_PULSE: BossAction := BossAction("void_pulse", 3, "Damage all adjacent tiles")

  /** Damage the pulse deals to a player next to the boss. */
  const PULSE_DAMAGE: int := 5

  function Abs(n: int): int { if n < 0 then -n else n }

  /** A direction moves exactly one cell horizontally or vertically. */
  predicate UnitStep(d: Direction) { Abs(d.dx) + Abs(d.dy) == 1 }

  function Opposite(d: Direction): Direction { Direction(-d.dx, -d.dy) }

  /** Each named direction is a unit step, and UP/DOWN and LEFT/RIGHT are
      opposite pairs. */
  lemma DirectionsAreUnitSteps()
    ensures UnitStep(DIRECTIONS.UP) && UnitStep(DIRECTIONS.DOWN)
    ensures UnitStep(DIRECTIONS.LEFT) && UnitStep(DIRECTIONS.RIGHT)
    ensures DIRECTIONS.DOWN == Opposite(DIRECTIONS.UP)
    ensures DIRECTIONS.RIGHT == Opposite(DIRECTIONS.LEFT)
    ensures DIRECTIONS.UP != DIRECTIONS.LEFT && DIRECTIONS.UP != DIRECTIONS.RIGHT
    ensures DIRECTIONS.DOWN != DIRECTIONS.LEFT && DIRECTIONS.DOWN != DIRECTIONS.RIGHT
  {
  }

  /** The data of the one configured zone and of the pulse action. */
  lemma MeadowZoneData()
    ensures "meadow-1" in ZONES
    ensures var z := ZONES["meadow-1"];
      && z.id == "meadow-1" && z.movesToBoss == 30
      && z.boss.kind == BOSS && z.boss.hp == 25 && z.boss.maxHp == Some(z.boss.hp)
      && z.boss.atk == 2 && z.boss.armor == 0
      && z.baseMonsterHp == 5 && z.baseMonsterAtk == 1
    ensures VOID_PULSE.cooldown == 3
  {
  }

  /** A cell of the ring of eight cells around the boss. */
  predicate InRing(p: Pos, boss: Pos)
  {
    p != boss && -1 <= p.x - boss.x <= 1 && -1 <= p.y - boss.y <= 1
  }

  /** Whether the pulse loops (dx outer, dy inner) reach the offset of p
      from the boss before they reach (dx, dy). */
  predicate VisitedBefore(p: Pos, boss: Pos, dx: int, dy: int)
  {
    p.x - boss.x < dx || (p.x - boss.x == dx && p.y - boss.y < dy)
  }

  /** What the iteration at offset (dx, dy) records: the target cell, unless
      it is the boss cell or off the board. */
  function Visit(boss: Pos, dx: int, dy: int): seq<Pos>
  {
    var t := Pos(boss.x + dx, boss.y + dy);
    if (dx != 0 || dy != 0) && InBounds(t.x, t.y) then [t] else []
  }

  /** The cells the loops have recorded when they reach offset (dx, dy);
      (dx, 2) is the end of column dx and the same point as (dx + 1, -1). */
  function Recorded(boss: Pos, dx: int, dy: int): seq<Pos>
    requires -1 <= dx <= 2 && -1 <= dy <= 2 && (dx == 2 ==> dy == -1)
    decreases dx, dy
  {
    if dy > -1 then Recorded(boss, dx, dy - 1) + Visit(boss, dx, dy - 1)
    else if dx > -1 then Recorded(boss, dx - 1, 2)
    else []
  }

  /** The danger-zone cells `preview` records. `Recorded`, `Visit` and
      `VisitedBefore` only spell out the order of the two loops; what a
      caller should rely on is DangerZoneExact: exactly the in-bounds cells
      of the ring around the boss, each once. */
  function DangerZone(boss: Pos): seq<Pos> { Recorded(boss, 2, -1) }

  predicate Distinct(s: seq<Pos>)
  {
    forall i, j :: 0 <= i < j < |s| ==> s[i] != s[j]
  }

  /** Up to (dx, dy) the loops record exactly the in-bounds ring cells they
      have visited. */
  lemma {:induction false} RecordedExact(boss: Pos, dx: int, dy: int, p: Pos)
    requires -1 <= dx <= 2 && -1 <= dy <= 2 && (dx == 2 ==> dy == -1)
    ensures p in Recorded(boss, dx, dy) <==>
      InBounds(p.x, p.y) && InRing(p, boss) && VisitedBefore(p, boss, dx, dy)
    decreases dx, dy
  {
    if dy > -1 {
      var v := Visit(boss, dx, dy - 1);
      assert Recorded(boss, dx, dy) == Recorded(boss, dx, dy - 1) + v;
      assert p in v <==> InBounds(p.x, p.y) && p != boss && p == Pos(boss.x + dx, boss.y + dy - 1);
      RecordedExact(boss, dx, dy - 1, p);
    } else if dx > -1 {
      RecordedExact(boss, dx - 1, 2, p);
    }
  }

  /** The recorded cells are pairwise different, one per visited offset
      other than the boss's own. */
  lemma {:induction false} RecordedShape(boss: Pos, dx: int, dy: int)
    requires -1 <= dx <= 2 && -1 <= dy <= 2 && (dx == 2 ==> dy == -1)
    ensures Distinct(Recorded(boss, dx, dy))
    ensures |Recorded(boss, dx, dy)|
         <= 3 * (dx + 1) + (dy + 1) - (if VisitedBefore(boss, boss, dx, dy) then 1 else 0)
    decreases dx, dy
  {
    if dy > -1 {
      var prior := Recorded(boss, dx, dy - 1);
      var v := Visit(boss, dx, dy - 1);
      var all := prior + v;
      assert Recorded(boss, dx, dy) == all;
      RecordedShape(boss, dx, dy - 1);
      if v != [] {
        RecordedExact(boss, dx, dy - 1, v[0]);
        forall i, j | 0 <= i < j < |all| ensures all[i] != all[j] {
          if j == |prior| {
            assert all[i] in prior;
          }
        }
      } else {
        assert all == prior;
      }
    } else if dx > -1 {
      RecordedShape(boss, dx - 1, 2);
    }
  }

  /** `preview` records exactly the in-bounds cells of the ring around the
      boss, each once, at most eight of them. */
  lemma DangerZoneExact(boss: Pos)
    ensures forall p :: p in DangerZone(boss) <==> InBounds(p.x, p.y) && InRing(p, boss)
    ensures |DangerZone(boss)| <= 8
    ensures Distinct(DangerZone(boss))
  {
    forall p ensures p in DangerZone(boss) <==> InBounds(p.x, p.y) && InRing(p, boss) {
      RecordedExact(boss, 2, -1, p);
    }
    RecordedShape(boss, 2, -1);
  }

  /** `VOID_PULSE.preview`: resets the danger-zone list, then records the
      in-bounds neighbours of the boss in loop order. */
  method Preview(grid: Grid, bossPos: Pos) returns (activeDangerZones: seq<Pos>)
    ensures activeDangerZones == DangerZone(bossPos)
  {
    activeDangerZones := [];
    var dx := -1;
    while dx <= 1
      invariant -1 <= dx <= 2
      invariant activeDangerZones == Recorded(bossPos, dx, -1)
    {
      var dy := -1;
      while dy <= 1
        invariant -1 <= dy <= 2
        invariant activeDangerZones == Recorded(bossPos, dx, dy)
      {
        if !(dx == 0 && dy == 0) {
          var tx := bossPos.x + dx;
          var ty := bossPos.y + dy;
          if grid.IsWithinBounds(tx, ty) {
            activeDangerZones := activeDangerZones + [Pos(tx, ty)];
          }
        }
        dy := dy + 1;
      }
      dx := dx + 1;
    }
  }

  /** One step of `execute`: a player standing on the cell (x, y) loses
      PULSE_DAMAGE hp, clamped at 0; nothing else changes. */
  method Strike(grid: Grid, x: int, y: int)
    requires grid.Valid()
    requires CountKind(grid.board, PLAYER) <= 1
    modifies grid.Occupants()
    ensures forall i :: 0 <= i < CellCount && HoldsKind(grid.board[i], PLAYER) ==>
      grid.board[i].hp
        == if PosOf(i) == Pos(x, y) then Max(0, old(grid.board[i].hp) - PULSE_DAMAGE)
           else old(grid.board[i].hp)
    ensures forall e <- old(grid.Occupants()) :: e.kind != PLAYER ==> unchanged(e)
    ensures forall e <- old(grid.Occupants()) :: unchanged(e`atk, e`xp, e`upgrades)
  {
    if grid.IsWithinBounds(x, y) {
      var target := grid.GetValue(x, y);
      if target != null && target.kind == PLAYER {
        ghost var t := IndexOf(x, y);
        IndexOfInBounds(x, y);
        forall i | 0 <= i < CellCount && HoldsKind(grid.board[i], PLAYER) ensures i == t {
          AtMostOneKindCell(grid.board, PLAYER, i, t);
        }
        target.hp := Max(0, target.hp - PULSE_DAMAGE);
      }
    } else {
      forall i | 0 <= i < CellCount ensures PosOf(i) != Pos(x, y) {
        PosOfInRange(i);
      }
    }
  }

  /** `VOID_PULSE.execute`: clears the danger-zone list and takes
      PULSE_DAMAGE hp, clamped at 0, from a player on any in-bounds cell of
      the ring around the boss; nothing else changes. */
  method Execute(grid: Grid, bossPos: Pos) returns (activeDangerZones: seq<Pos>)
    requires grid.Valid()
    requires CountKind(grid.board, PLAYER) <= 1
    modifies grid.Occupants()
    ensures activeDangerZones == []
    ensures grid.board == old(grid.board)
    ensures forall i :: 0 <= i < CellCount && HoldsKind(grid.board[i], PLAYER) ==>
      grid.board[i].hp
        == if InRing(PosOf(i), bossPos) then Max(0, old(grid.board[i].hp) - PULSE_DAMAGE)
           else old(grid.board[i].hp)
    ensures forall e <- old(grid.Occupants()) :: e.kind != PLAYER ==> unchanged(e)
    ensures forall e <- old(grid.Occupants()) :: unchanged(e`atk, e`xp, e`upgrades)
  {
    activeDangerZones := [];
    var dx := -1;
    while dx <= 1
      invariant -1 <= dx <= 2
      invariant forall i :: 0 <= i < CellCount && HoldsKind(grid.board[i], PLAYER) ==>
        grid.board[i].hp
          == if InRing(PosOf(i), bossPos) && VisitedBefore(PosOf(i), bossPos, dx, -1)
             then Max(0, old(grid.board[i].hp) - PULSE_DAMAGE) else old(grid.board[i].hp)
      invariant forall e <- old(grid.Occupants()) :: e.kind != PLAYER ==> unchanged(e)
      invariant forall e <- old(grid.Occupants()) :: unchanged(e`atk, e`xp, e`upgrades)
    {
      var dy := -1;
      while dy <= 1
        invariant -1 <= dy <= 2
        invariant forall i :: 0 <= i < CellCount && HoldsKind(grid.board[i], PLAYER) ==>
          grid.board[i].hp
            == if InRing(PosOf(i), bossPos) && VisitedBefore(PosOf(i), bossPos, dx, dy)
               then Max(0, old(grid.board[i].hp) - PULSE_DAMAGE) else old(grid.board[i].hp)
        invariant forall e <- old(grid.Occupants()) :: e.kind != PLAYER ==> unchanged(e)
        invariant forall e <- old(grid.Occupants()) :: unchanged(e`atk, e`xp, e`upgrades)
      {
        if !(dx == 0 && dy == 0) {
          Strike(grid, bossPos.x + dx, bossPos.y + dy);
        }
        dy := dy + 1;
      }
      dx := dx + 1;
    }
  }
}
