/** The turn loop of src/core/GameEngine.ts: an arrow key moves the player and
    every resolved move spawns a new entity. Rendering is not modelled. */
module Engine {
  import opened Types
  import opened Board
  import opened Constants

  /** The direction an arrow key stands for; any other key stands for none. */
  function KeyDirection(key: string): (d: Option<Direction>)
    ensures d.Some? ==> UnitStep(d.value)
    ensures d.Some? <==> key in {"ArrowUp", "ArrowDown", "ArrowLeft", "ArrowRight"}
    ensures d == Some(DIRECTIONS.UP) <==> key == "ArrowUp"
    ensures d == Some(DIRECTIONS.DOWN) <==> key == "ArrowDown"
    ensures d == Some(DIRECTIONS.LEFT) <==> key == "ArrowLeft"
    ensures d == Some(DIRECTIONS.RIGHT) <==> key == "ArrowRight"
  {
    if key == "ArrowUp" then Some(DIRECTIONS.UP)
    else if key == "ArrowDown" then Some(DIRECTIONS.DOWN)
    else if key == "ArrowLeft" then Some(DIRECTIONS.LEFT)
    else if key == "ArrowRight" then Some(DIRECTIONS.RIGHT)
    else None
  }

  /** The shape of a freshly spawned entity. */
  predicate Spawned(e: Cell, spawnMonster: bool)
    reads e
  {
    && e != null
    && e.kind == (if spawnMonster then MONSTER else XP)
    && e.hp == 5 && e.atk == 1 && e.armor == 0
    && e.level == None && e.xp == None && e.maxHp == None
    && e.bonusHeal == None && e.upgrades == None
  }

  /** The row-major index of the empty cell that `pick` selects, reduced
      modulo the number of empty cells. */
  function SpawnCell(b: seq<Cell>, pick: nat): (i: int)
    requires |b| == CellCount && |EmptyCellsOf(b)| > 0
    ensures 0 <= i < |b| && b[i] == null
  {
    var empty := EmptyCellsOf(b);
    var p := empty[pick % |empty|];
    EmptyCellsExact(b, p);
    IndexOf(p.x, p.y)
  }

  /** What `spawnRandomEntity` does to the board: a full board stays as it
      is; otherwise the selected empty cell, and only it, receives a spawned
      entity. */
  ghost predicate SpawnStep(before: seq<Cell>, after: seq<Cell>, pick: nat, spawnMonster: bool)
    requires |before| == CellCount
    reads after
  {
    if |EmptyCellsOf(before)| == 0 then after == before
    else
      var i := SpawnCell(before, pick);
      && |after| == |before|
      && after == before[i := after[i]]
      && Spawned(after[i], spawnMonster)
  }

  class GameEngine {
    const grid: Grid

    ghost predicate Valid()
      reads this, grid, grid.cells
    {
      grid.Valid()
    }

    /** A new run on an empty board, its player seeded from `stats` as
        the Grid constructor does. */
    constructor (stats: PermanentStats)
      ensures Valid() && fresh(grid) && fresh(grid.cells) && fresh(grid.player)
      ensures forall i :: 0 <= i < CellCount ==> grid.board[i] == null
      ensures grid.player.hp == stats.baseHp && grid.player.maxHp == Some(stats.baseHp)
      ensures grid.player.atk == stats.baseAtk && grid.player.armor == stats.baseArmor
      ensures grid.player.bonusHeal == Some(stats.baseHealBonus)
      ensures grid.player.level == Some(1) && grid.player.xp == Some(0)
      ensures grid.player.upgrades == Some([])
    {
      grid := new Grid(stats);
    }

    /** `start`: places the player on the empty cell `pick` selects
        (see Grid.Init). */
    method Start(pick: nat)
      requires Valid()
      modifies grid`board, grid.cells
      ensures Valid()
      ensures var empty := EmptyCellsOf(old(grid.board));
        if |empty| == 0 then grid.board == old(grid.board)
        else
          var p := empty[pick % |empty|];
          InBounds(p.x, p.y) && old(grid.board)[IndexOf(p.x, p.y)] == null
          && grid.board == old(grid.board)[IndexOf(p.x, p.y) := grid.player]
      ensures old(CountKind(grid.board, PLAYER)) == 0 && old(Occupied(grid.board)) < CellCount
        ==> CountKind(grid.board, PLAYER) == 1
    {
      grid.Init(pick);
    }

    /** `spawnRandomEntity`: a fresh MONSTER (when `spawnMonster`) or XP
        entity with 5 hp, 1 atk and 0 armor lands on the empty cell `pick`
        selects (modulo the number of empty cells); a full board is left as
        it is. `pick` and `spawnMonster` stand for the two random draws. */
    method SpawnRandomEntity(pick: nat, spawnMonster: bool)
      requires Valid()
      modifies grid`board, grid.cells
      ensures Valid()
      ensures SpawnStep(old(grid.board), grid.board, pick, spawnMonster)
      ensures |EmptyCellsOf(old(grid.board))| > 0 ==> fresh(grid.board[SpawnCell(old(grid.board), pick)])
      ensures Occupied(grid.board)
           == old(Occupied(grid.board)) + (if old(Occupied(grid.board)) < CellCount then 1 else 0)
      ensures CountKind(grid.board, PLAYER) == old(CountKind(grid.board, PLAYER))
    {
      var emptyCells := grid.GetEmptyCells();
      ScansPartition(grid.board);
      OccupiedBounded(grid.board);
      if |emptyCells| > 0 {
        var p := emptyCells[pick % |emptyCells|];
        EmptyCellsExact(grid.board, p);
        var kind := if spawnMonster then MONSTER else XP;
        var e := new Entity(kind, 5, 1, 0, None, None, None, None, None);
        ghost var i := IndexOf(p.x, p.y);
        IndexOfInBounds(p.x, p.y);
        CountKindUpdate(grid.board, i, e, PLAYER);
        OccupiedUpdate(grid.board, i, e);
        grid.SetValue(p.x, p.y, e);
      }
    }

    /** The keydown handler of `setupInputs`: an arrow key moves the player
        as `movePlayer` does for its direction; whenever the move returns a
        result (a step, a bump or a pickup) a new entity spawns. Any other
        key changes nothing. `mid` is the board between the move and the
        spawn. */
    method HandleKey(key: string, pick: nat, spawnMonster: bool)
      returns (moved: Option<MoveResult>, ghost mid: seq<Cell>)
      requires Valid()
      modifies grid`board, grid.cells, grid.Occupants()
      ensures Valid() && |mid| == CellCount
      ensures moved.None? <==>
        KeyDirection(key).None? || old(MoveCaseOf(grid.board, KeyDirection(key).value)).Rejected()
      ensures moved.None? ==> mid == old(grid.board) && grid.board == old(grid.board)
      ensures moved.None? ==> forall e <- old(grid.Occupants()) :: unchanged(e)
      ensures moved.Some? ==> KeyDirection(key).Some? && old(grid.PlayerEntry()).Some?
      ensures moved.Some? ==>
        var d := KeyDirection(key).value;
        var pe := old(grid.PlayerEntry()).value;
        var t := Pos(pe.x + d.dx, pe.y + d.dy);
        && InBounds(pe.x, pe.y) && InBounds(t.x, t.y)
        && old(grid.board)[IndexOf(pe.x, pe.y)] == pe.entity
        && Resolved(pe, t.x, t.y, old(grid.board)[IndexOf(t.x, t.y)], old(grid.board), mid,
                    old(StatsOf(pe.entity)), old(StatsOf(grid.board[IndexOf(t.x, t.y)])), moved.value)
        && (forall e <- old(grid.Occupants()) ::
              e != pe.entity && e != old(grid.board)[IndexOf(t.x, t.y)] ==> unchanged(e))
      ensures moved.Some? ==>
        && SpawnStep(mid, grid.board, pick, spawnMonster)
        && (|EmptyCellsOf(mid)| > 0 ==> fresh(grid.board[SpawnCell(mid, pick)]))
      ensures CountKind(grid.board, PLAYER) == old(CountKind(grid.board, PLAYER))
      ensures moved.Some? ==>
        Occupied(grid.board)
          == old(Occupied(grid.board))
             - (if moved.value.moved && moved.value.kind != PLAYER then 1 else 0)
             + (if moved.value.moved || old(Occupied(grid.board)) < CellCount then 1 else 0)
    {
      moved := None;
      var d := KeyDirection(key);
      if d.Some? {
        moved := grid.MovePlayer(d.value);
      }
      mid := grid.board;
      if moved.Some? {
        if moved.value.moved {
          var pe := old(grid.PlayerEntry()).value;
          HoleMeansRoom(grid.board, IndexOf(pe.x, pe.y));
        }
        SpawnRandomEntity(pick, spawnMonster);
      }
    }
  }
}
