/** The 4x4 board and move resolution (src/core/Grid.ts).

    The board is a `Grid` object over a 4x4 array of optional entity
    references. Its shape is read through `board`, the 16 cells in row-major
    order (y outer, x inner); since an entity's tag never changes, everything
    about which cells are empty and which hold a player is a pure function of
    that sequence, and the lemmas below are stated on it. */
module Board {
  import opened Types

  /** Side length of the board (`size`). */
  const Size: int := 4
  /** Number of cells on the board. */
  const CellCount: int := 16

  function Max(a: int, b: int): int { if a >= b then a else b }

  /** The bounds test behind `isWithinBounds`. */
  predicate InBounds(x: int, y: int) { 0 <= x < Size && 0 <= y < Size }

  /** Row-major rank of a coordinate. */
  function IndexOf(x: int, y: int): int { y * Size + x }

  /** The coordinate of the cell with row-major rank i. */
  function PosOf(i: int): Pos { Pos(i % Size, i / Size) }

  lemma IndexOfInBounds(x: int, y: int)
    requires InBounds(x, y)
    ensures 0 <= IndexOf(x, y) < CellCount
    ensures PosOf(IndexOf(x, y)) == Pos(x, y)
  {
  }

  lemma PosOfInRange(i: int)
    requires 0 <= i < CellCount
    ensures InBounds(PosOf(i).x, PosOf(i).y)
    ensures IndexOf(PosOf(i).x, PosOf(i).y) == i
  {
  }

  /** The in-bounds coordinates are exactly the 16 row-major positions. */
  lemma BoundsMatchCells(x: int, y: int)
    ensures InBounds(x, y) <==> exists i :: 0 <= i < CellCount && PosOf(i) == Pos(x, y)
  {
    if InBounds(x, y) {
      IndexOfInBounds(x, y);
    }
    if exists i :: 0 <= i < CellCount && PosOf(i) == Pos(x, y) {
      var i :| 0 <= i < CellCount && PosOf(i) == Pos(x, y);
      PosOfInRange(i);
    }
  }

  /** An occupied cell as `getEntities` reports it. */
  datatype Placed = Placed(x: int, y: int, entity: Entity)

  /** The empty cells of a row-major prefix, in order (`getEmptyCells`). */
  function EmptyCellsOf(b: seq<Cell>): (r: seq<Pos>)
    ensures |r| <= |b|
  {
    if b == [] then []
    else EmptyCellsOf(b[..|b| - 1]) + (if b[|b| - 1] == null then [PosOf(|b| - 1)] else [])
  }

  /** The occupied cells of a row-major prefix with their occupants, in order
      (`getEntities`). */
  function EntitiesOf(b: seq<Cell>): (r: seq<Placed>)
    ensures |r| <= |b|
  {
    if b == [] then []
    else
      var last := b[|b| - 1];
      EntitiesOf(b[..|b| - 1])
        + (if last != null then [Placed(PosOf(|b| - 1).x, PosOf(|b| - 1).y, last)] else [])
  }

  /** Number of occupied cells. */
  function Occupied(b: seq<Cell>): nat
  {
    if b == [] then 0
    else Occupied(b[..|b| - 1]) + (if b[|b| - 1] != null then 1 else 0)
  }

  /** Whether a cell holds an entity tagged k. */
  predicate HoldsKind(c: Cell, k: EntityType) { c != null && c.kind == k }

  /** Number of cells holding an entity tagged k. */
  function CountKind(b: seq<Cell>, k: EntityType): nat
  {
    if b == [] then 0
    else CountKind(b[..|b| - 1], k) + (if HoldsKind(b[|b| - 1], k) then 1 else 0)
  }

  /** `getEmptyCells` lists exactly the empty in-bounds cells. */
  lemma {:induction false} EmptyCellsExact(b: seq<Cell>, p: Pos)
    requires |b| <= CellCount
    ensures p in EmptyCellsOf(b)
        <==> InBounds(p.x, p.y) && IndexOf(p.x, p.y) < |b| && b[IndexOf(p.x, p.y)] == null
  {
    if b != [] {
      var n := |b| - 1;
      EmptyCellsExact(b[..n], p);
      PosOfInRange(n);
      if InBounds(p.x, p.y) {
        IndexOfInBounds(p.x, p.y);
      }
    }
  }

  /** `getEmptyCells` lists the empty cells in strictly increasing row-major
      order, so without repetition. */
  lemma {:induction false} EmptyCellsRowMajor(b: seq<Cell>)
    requires |b| <= CellCount
    ensures forall q <- EmptyCellsOf(b) :: InBounds(q.x, q.y) && IndexOf(q.x, q.y) < |b|
    ensures forall i, j :: 0 <= i < j < |EmptyCellsOf(b)| ==>
      IndexOf(EmptyCellsOf(b)[i].x, EmptyCellsOf(b)[i].y)
        < IndexOf(EmptyCellsOf(b)[j].x, EmptyCellsOf(b)[j].y)
  {
    if b != [] {
      var n := |b| - 1;
      EmptyCellsRowMajor(b[..n]);
      PosOfInRange(n);
    }
  }

  /** `getEntities` lists exactly the occupied cells with their occupants. */
  lemma {:induction false} EntitiesExact(b: seq<Cell>, pe: Placed)
    requires |b| <= CellCount
    ensures pe in EntitiesOf(b)
        <==> InBounds(pe.x, pe.y) && IndexOf(pe.x, pe.y) < |b| && b[IndexOf(pe.x, pe.y)] == pe.entity
  {
    if b != [] {
      var n := |b| - 1;
      EntitiesExact(b[..n], pe);
      PosOfInRange(n);
      if InBounds(pe.x, pe.y) {
        IndexOfInBounds(pe.x, pe.y);
      }
    }
  }

  /** `getEntities` lists the occupied cells in strictly increasing row-major
      order. */
  lemma {:induction false} EntitiesRowMajor(b: seq<Cell>)
    requires |b| <= CellCount
    ensures forall q <- EntitiesOf(b) :: InBounds(q.x, q.y) && IndexOf(q.x, q.y) < |b|
    ensures forall i, j :: 0 <= i < j < |EntitiesOf(b)| ==>
      IndexOf(EntitiesOf(b)[i].x, EntitiesOf(b)[i].y)
        < IndexOf(EntitiesOf(b)[j].x, EntitiesOf(b)[j].y)
  {
    if b != [] {
      var n := |b| - 1;
      EntitiesRowMajor(b[..n]);
      PosOfInRange(n);
    }
  }

  /** The two scans partition the board: every cell is in exactly one of
      them, and their sizes add up. */
  lemma {:induction false} ScansPartition(b: seq<Cell>)
    ensures |EntitiesOf(b)| == Occupied(b)
    ensures |EmptyCellsOf(b)| == |b| - Occupied(b)
  {
    if b != [] {
      ScansPartition(b[..|b| - 1]);
    }
  }

  /** Writing one cell changes the count of k-tagged cells by what left and
      what arrived. */
  lemma {:induction false} CountKindUpdate(b: seq<Cell>, i: int, v: Cell, k: EntityType)
    requires 0 <= i < |b|
    ensures CountKind(b[i := v], k)
         == CountKind(b, k) - (if HoldsKind(b[i], k) then 1 else 0) + (if HoldsKind(v, k) then 1 else 0)
  {
    var n := |b| - 1;
    if i < n {
      assert b[i := v][..n] == b[..n][i := v];
      CountKindUpdate(b[..n], i, v, k);
    } else {
      assert b[i := v][..n] == b[..n];
    }
  }

  /** Writing one cell changes the occupied count by what left and what
      arrived. */
  lemma {:induction false} OccupiedUpdate(b: seq<Cell>, i: int, v: Cell)
    requires 0 <= i < |b|
    ensures Occupied(b[i := v])
         == Occupied(b) - (if b[i] != null then 1 else 0) + (if v != null then 1 else 0)
  {
    var n := |b| - 1;
    if i < n {
      assert b[i := v][..n] == b[..n][i := v];
      OccupiedUpdate(b[..n], i, v);
    } else {
      assert b[i := v][..n] == b[..n];
    }
  }

  /** A board with an empty cell is not full. */
  lemma {:induction false} HoleMeansRoom(b: seq<Cell>, i: int)
    requires 0 <= i < |b| && b[i] == null
    ensures Occupied(b) < |b|
  {
    var n := |b| - 1;
    if i < n {
      HoleMeansRoom(b[..n], i);
    }
    OccupiedBounded(b[..n]);
  }

  lemma {:induction false} OccupiedBounded(b: seq<Cell>)
    ensures Occupied(b) <= |b|
  {
    if b != [] {
      OccupiedBounded(b[..|b| - 1]);
    }
  }

  /** No cell holds a k-tagged entity exactly when the count is zero. */
  lemma {:induction false} CountKindZero(b: seq<Cell>, k: EntityType)
    ensures CountKind(b, k) == 0 <==> forall i :: 0 <= i < |b| ==> !HoldsKind(b[i], k)
  {
    if b != [] {
      var n := |b| - 1;
      CountKindZero(b[..n], k);
      assert forall i :: 0 <= i < n ==> b[..n][i] == b[i];
    }
  }

  /** With at most one k-tagged cell, two k-tagged cells are the same cell. */
  lemma {:induction false} AtMostOneKindCell(b: seq<Cell>, k: EntityType, i: int, j: int)
    requires CountKind(b, k) <= 1
    requires 0 <= i < |b| && 0 <= j < |b|
    requires HoldsKind(b[i], k) && HoldsKind(b[j], k)
    ensures i == j
  {
    var n := |b| - 1;
    if i != j {
      if i < n && j < n {
        AtMostOneKindCell(b[..n], k, i, j);
      } else {
        var m := if i < n then i else j;
        assert HoldsKind(b[..n][m], k);
        CountKindZero(b[..n], k);
      }
    }
  }

  /** The `entities.find(...)` call of `movePlayer`: the first entry whose
      occupant is tagged PLAYER. */
  function FindPlayer(entities: seq<Placed>): (r: Option<Placed>)
    ensures r.Some? ==> r.value in entities && r.value.entity.kind == PLAYER
    ensures r.None? <==> forall pe <- entities :: pe.entity.kind != PLAYER
  {
    if entities == [] then None
    else if entities[0].entity.kind == PLAYER then Some(entities[0])
    else FindPlayer(entities[1..])
  }

  /** `find` returns the first matching entry: every entry before it is not
      a player. */
  lemma {:induction false} FindPlayerFirst(entities: seq<Placed>)
    requires FindPlayer(entities).Some?
    ensures exists k ::
              && 0 <= k < |entities| && entities[k] == FindPlayer(entities).value
              && forall j :: 0 <= j < k ==> entities[j].entity.kind != PLAYER
  {
    if entities[0].entity.kind != PLAYER {
      var rest := entities[1..];
      FindPlayerFirst(rest);
      var k :| (0 <= k < |rest| && rest[k] == FindPlayer(rest).value &&
                (forall j :: 0 <= j < k ==> rest[j].entity.kind != PLAYER));
      assert entities[k + 1] == rest[k];
      forall j | 0 <= j < k + 1 ensures entities[j].entity.kind != PLAYER {
        if j > 0 {
          assert entities[j] == rest[j - 1];
        }
      }
    } else {
      assert entities[0] == FindPlayer(entities).value;
    }
  }

  /** The player entry `movePlayer` finds sits on its own cell, and it finds
      none exactly when no cell holds a player. */
  lemma PlayerEntryOnBoard(b: seq<Cell>)
    requires |b| == CellCount
    ensures match FindPlayer(EntitiesOf(b))
      case Some(pe) =>
        InBounds(pe.x, pe.y) && b[IndexOf(pe.x, pe.y)] == pe.entity && pe.entity.kind == PLAYER
      case None => CountKind(b, PLAYER) == 0
  {
    match FindPlayer(EntitiesOf(b))
    case Some(pe) =>
      EntitiesExact(b, pe);
    case None =>
      CountKindZero(b, PLAYER);
      forall i | 0 <= i < |b| ensures !HoldsKind(b[i], PLAYER) {
        if b[i] != null {
          PosOfInRange(i);
          EntitiesExact(b, Placed(PosOf(i).x, PosOf(i).y, b[i]));
        }
      }
  }

  /** The board after the occupant of `from` moves onto `to`. */
  function Relocate(b: seq<Cell>, from: int, to: int): (r: seq<Cell>)
    requires 0 <= from < |b| && 0 <= to < |b|
    ensures |r| == |b| && r[to] == b[from]
    ensures from != to ==> r[from] == null
    ensures forall k :: 0 <= k < |b| && k != from && k != to ==> r[k] == b[k]
  {
    b[from := null][to := b[from]]
  }

  /** A player moving onto an empty, monster or pickup cell keeps the number
      of player cells, and the occupied count drops by one exactly when the
      target was occupied. */
  lemma RelocateCounts(b: seq<Cell>, from: int, to: int)
    requires 0 <= from < |b| && 0 <= to < |b| && from != to
    requires HoldsKind(b[from], PLAYER) && !HoldsKind(b[to], PLAYER)
    ensures CountKind(Relocate(b, from, to), PLAYER) == CountKind(b, PLAYER)
    ensures Occupied(Relocate(b, from, to)) == Occupied(b) - (if b[to] != null then 1 else 0)
    ensures Relocate(b, from, to)[from] == null && Relocate(b, from, to)[to] == b[from]
  {
    CountKindUpdate(b, from, null, PLAYER);
    CountKindUpdate(b[from := null], to, b[from], PLAYER);
    OccupiedUpdate(b, from, null);
    OccupiedUpdate(b[from := null], to, b[from]);
  }

  /** How `movePlayer` classifies a move before touching any state. */
  datatype MoveCase = NoPlayer | OffBoard | IntoEmpty | Bump | Pickup | Refused
  {
    /** The cases in which `movePlayer` returns null. */
    predicate Rejected() { this == NoPlayer || this == OffBoard || this == Refused }
  }

  function MoveCaseOf(b: seq<Cell>, d: Direction): MoveCase
    requires |b| == CellCount
  {
    match FindPlayer(EntitiesOf(b))
    case None => NoPlayer
    case Some(pe) =>
      var nx, ny := pe.x + d.dx, pe.y + d.dy;
      if !InBounds(nx, ny) then OffBoard
      else
        var t := b[IndexOf(nx, ny)];
        if t == null then IntoEmpty
        else if t.kind == MONSTER then Bump
        else if t.kind == XP then Pickup
        else Refused
  }

  /** The result object of `movePlayer`. */
  datatype MoveResult = MoveResult(moved: bool, damageDealt: int, targetPos: Pos, kind: EntityType)

  /** The fields of an entity that a move may write, as a value; an empty
      cell reads as all zero. */
  datatype Stats = Stats(hp: int, atk: int, xp: Option<int>, upgrades: Option<seq<Upgrade>>)

  function StatsOf(c: Cell): Stats
    reads c
  {
    if c == null then Stats(0, 0, None, None) else Stats(c.hp, c.atk, c.xp, c.upgrades)
  }

  /** What a resolved move did, for a player entry `pe` stepping onto the
      in-bounds cell (x, y) that held `target`: the result, the board shape
      `after` compared with `before` and, per kind of target, the fields
      written, compared with the stats `p0` of the player and `t0` of the
      target before the move. */
  ghost predicate Resolved(pe: Placed, x: int, y: int, target: Cell,
                           before: seq<Cell>, after: seq<Cell>, p0: Stats, t0: Stats, res: MoveResult)
    requires |before| == CellCount && InBounds(pe.x, pe.y) && InBounds(x, y)
    reads pe.entity, target
  {
    && res.targetPos == Pos(x, y)
    && after == (if res.moved then Relocate(before, IndexOf(pe.x, pe.y), IndexOf(x, y)) else before)
    // a step onto an empty cell
    && (target == null ==> res == MoveResult(true, 0, Pos(x, y), PLAYER) && StatsOf(pe.entity) == p0)
    // a bump attack on a monster: both lose hp, clamped at 0; the player moves in on a kill
    && (HoldsKind(target, MONSTER) ==>
          && target.hp == Max(0, t0.hp - p0.atk)
          && pe.entity.hp == Max(0, p0.hp - t0.atk)
          && StatsOf(pe.entity) == p0.(hp := pe.entity.hp)
          && StatsOf(target) == t0.(hp := target.hp)
          && res == MoveResult(target.hp == 0, p0.atk, Pos(x, y), MONSTER))
    // an XP pickup: one more xp, and the player takes the pickup's cell
    && (HoldsKind(target, XP) ==>
          && StatsOf(pe.entity) == p0.(xp := Some(XpOrZero(p0.xp) + 1))
          && StatsOf(target) == t0
          && res == MoveResult(true, 0, Pos(x, y), XP))
  }

  /** The board object. `cells[y, x]` holds the occupant of (x, y). */
  class Grid {
    const size: int := Size
    const cells: array2<Cell>
    /** The run's player; the core never reassigns it. */
    const player: Entity

    /** The 16 cells in row-major order: the abstract value of `cells`. */
    ghost var board: seq<Cell>

    ghost predicate Valid()
      reads this, cells
    {
      && cells.Length0 == Size && cells.Length1 == Size
      && |board| == CellCount
      && (forall x, y :: InBounds(x, y) ==> board[IndexOf(x, y)] == cells[y, x])
      && player.kind == PLAYER
    }

    /** The entities on the board. */
    ghost function Occupants(): set<Entity>
      requires Valid()
      reads this, cells
    {
      set e: Entity | e in board
    }

    /** The entry `movePlayer` acts on. */
    ghost function PlayerEntry(): Option<Placed>
      requires Valid()
      reads this, cells
    {
      FindPlayer(EntitiesOf(board))
    }

    /** The board starts empty and holds a fresh level-1 player built from
        the permanent stats, not yet placed. */
    constructor (metadata: PermanentStats)
      ensures Valid() && fresh(cells) && fresh(player)
      ensures forall i :: 0 <= i < CellCount ==> board[i] == null
      ensures player.hp == metadata.baseHp && player.maxHp == Some(metadata.baseHp)
      ensures player.atk == metadata.baseAtk && player.armor == metadata.baseArmor
      ensures player.bonusHeal == Some(metadata.baseHealBonus)
      ensures player.level == Some(1) && player.xp == Some(0) && player.upgrades == Some([])
    {
      cells := new Cell[Size, Size]((y, x) => null);
      board := seq(CellCount, i => null);
      player := new Entity(PLAYER, metadata.baseHp, metadata.baseAtk, metadata.baseArmor,
                           Some(1), Some(0), Some(metadata.baseHp),
                           Some(metadata.baseHealBonus), Some([]));
    }

    /** Places the player on the empty cell the random draw selects; `pick`
        stands for the draw and is reduced modulo the number of empty cells. */
    method Init(pick: nat)
      requires Valid()
      modifies this`board, cells
      ensures Valid()
      ensures var empty := EmptyCellsOf(old(board));
        if |empty| == 0 then board == old(board)
        else
          var p := empty[pick % |empty|];
          InBounds(p.x, p.y) && old(board)[IndexOf(p.x, p.y)] == null
          && board == old(board)[IndexOf(p.x, p.y) := player]
      ensures old(CountKind(board, PLAYER)) == 0 && old(Occupied(board)) < CellCount
        ==> CountKind(board, PLAYER) == 1
    {
      var emptyCells := GetEmptyCells();
      ScansPartition(board);
      if |emptyCells| > 0 {
        var p := emptyCells[pick % |emptyCells|];
        EmptyCellsExact(board, p);
        SetValue(p.x, p.y, player);
        CountKindUpdate(old(board), IndexOf(p.x, p.y), player, PLAYER);
      }
    }

    /** `isWithinBounds`. */
    function IsWithinBounds(x: int, y: int): (r: bool)
      ensures r == InBounds(x, y)
    {
      x >= 0 && x < size && y >= 0 && y < size
    }

    /** `getValue`: the occupant of (x, y), or empty off the board. */
    function GetValue(x: int, y: int): (c: Cell)
      requires Valid()
      reads this, cells
      ensures !InBounds(x, y) ==> c == null
      ensures InBounds(x, y) ==> c == board[IndexOf(x, y)]
    {
      if !IsWithinBounds(x, y) then null else cells[y, x]
    }

    /** `setValue`: writes (x, y); does nothing off the board. */
    method SetValue(x: int, y: int, value: Cell)
      requires Valid()
      modifies this`board, cells
      ensures Valid()
      ensures board == if InBounds(x, y) then old(board)[IndexOf(x, y) := value] else old(board)
    {
      if !IsWithinBounds(x, y) {
        return;
      }
      cells[y, x] := value;
      IndexOfInBounds(x, y);
      board := board[IndexOf(x, y) := value];
    }

    /** `movePlayer`: finds the player, then moves it onto an empty cell,
        bump-attacks a monster (moving in only on a kill) or collects an XP
        pickup; off the board, with no player, or onto any other entity it
        returns null and changes nothing. */
    method MovePlayer(direction: Direction) returns (r: Option<MoveResult>)
      requires Valid()
      modifies this`board, cells, Occupants()
      ensures Valid()
      ensures r.None? <==> old(MoveCaseOf(board, direction)).Rejected()
      ensures r.None? ==> board == old(board)
      ensures r.None? ==> forall e <- old(Occupants()) :: unchanged(e)
      ensures r.Some? ==> old(PlayerEntry()).Some?
      ensures r.Some? ==>
        var pe := old(PlayerEntry()).value;
        var t := Pos(pe.x + direction.dx, pe.y + direction.dy);
        && InBounds(pe.x, pe.y) && InBounds(t.x, t.y)
        && old(board)[IndexOf(pe.x, pe.y)] == pe.entity
        && Resolved(pe, t.x, t.y, old(board)[IndexOf(t.x, t.y)], old(board), board,
                    old(StatsOf(pe.entity)), old(StatsOf(board[IndexOf(t.x, t.y)])), r.value)
        && forall e <- old(Occupants()) ::
             e != pe.entity && e != old(board)[IndexOf(t.x, t.y)] ==> unchanged(e)
      ensures CountKind(board, PLAYER) == old(CountKind(board, PLAYER))
      ensures Occupied(board)
           == old(Occupied(board)) - (if r.Some? && r.value.moved && r.value.kind != PLAYER then 1 else 0)
    {
      ghost var mc := MoveCaseOf(board, direction);
      var entities := GetEntities();
      var playerEntry := FindPlayer(entities);
      PlayerEntryOnBoard(board);
      assert playerEntry == PlayerEntry();
      if playerEntry.None? {
        assert mc == NoPlayer;
        return None;
      }
      var pe := playerEntry.value;
      var newX := pe.x + direction.dx;
      var newY := pe.y + direction.dy;
      if IsWithinBounds(newX, newY) {
        IndexOfInBounds(newX, newY);
        r := ResolveMove(pe, newX, newY);
        return;
      }
      assert mc == OffBoard;
      return None;
    }

    /** The in-bounds branch of `movePlayer`: the player entry `pe` steps
        onto (x, y). */
    method ResolveMove(pe: Placed, x: int, y: int) returns (r: Option<MoveResult>)
      requires Valid() && InBounds(pe.x, pe.y) && InBounds(x, y)
      requires board[IndexOf(pe.x, pe.y)] == pe.entity && pe.entity.kind == PLAYER
      modifies this`board, cells, pe.entity, board[IndexOf(x, y)]
      ensures Valid()
      ensures var target := old(board)[IndexOf(x, y)];
        r.None? <==> target != null && target.kind != MONSTER && target.kind != XP
      ensures r.None? ==> board == old(board) && unchanged(pe.entity, old(board)[IndexOf(x, y)])
      ensures r.Some? ==>
        Resolved(pe, x, y, old(board)[IndexOf(x, y)], old(board), board,
                 old(StatsOf(pe.entity)), old(StatsOf(board[IndexOf(x, y)])), r.value)
      ensures CountKind(board, PLAYER) == old(CountKind(board, PLAYER))
      ensures Occupied(board)
           == old(Occupied(board)) - (if r.Some? && r.value.moved && r.value.kind != PLAYER then 1 else 0)
    {
      var targetCell := GetValue(x, y);
      if targetCell == null {
        MoveOnto(pe, x, y);
        return Some(MoveResult(true, 0, Pos(x, y), PLAYER));
      } else if targetCell.kind == MONSTER {
        targetCell.hp := Max(0, targetCell.hp - pe.entity.atk);
        pe.entity.hp := Max(0, pe.entity.hp - targetCell.atk);
        if targetCell.hp <= 0 {
          MoveOnto(pe, x, y);
          return Some(MoveResult(true, pe.entity.atk, Pos(x, y), MONSTER));
        }
        return Some(MoveResult(false, pe.entity.atk, Pos(x, y), MONSTER));
      } else if targetCell.kind == XP {
        pe.entity.xp := Some(XpOrZero(pe.entity.xp) + 1);
        MoveOnto(pe, x, y);
        return Some(MoveResult(true, 0, Pos(x, y), XP));
      } else {
        return None;
      }
    }

    /** The pair of `setValue` calls in `movePlayer` that empties the
        player's cell and puts the player on (x, y). */
    method MoveOnto(pe: Placed, x: int, y: int)
      requires Valid() && InBounds(pe.x, pe.y) && InBounds(x, y)
      requires board[IndexOf(pe.x, pe.y)] == pe.entity && HoldsKind(pe.entity, PLAYER)
      requires !HoldsKind(board[IndexOf(x, y)], PLAYER)
      modifies this`board, cells
      ensures Valid()
      ensures board == Relocate(old(board), IndexOf(pe.x, pe.y), IndexOf(x, y))
      ensures CountKind(board, PLAYER) == old(CountKind(board, PLAYER))
      ensures Occupied(board) == old(Occupied(board)) - (if old(board)[IndexOf(x, y)] != null then 1 else 0)
    {
      IndexOfInBounds(pe.x, pe.y);
      IndexOfInBounds(x, y);
      RelocateCounts(board, IndexOf(pe.x, pe.y), IndexOf(x, y));
      SetValue(pe.x, pe.y, null);
      SetValue(x, y, pe.entity);
    }

    /** `getEmptyCells`. */
    method GetEmptyCells() returns (emptyCells: seq<Pos>)
      requires Valid()
      ensures emptyCells == EmptyCellsOf(board)
    {
      emptyCells := [];
      var y := 0;
      while y < size
        invariant 0 <= y <= Size
        invariant emptyCells == EmptyCellsOf(board[..y * Size])
      {
        var x := 0;
        while x < size
          invariant 0 <= x <= Size
          invariant emptyCells == EmptyCellsOf(board[..y * Size + x])
        {
          ghost var k := y * Size + x;
          assert board[..k + 1][..k] == board[..k];
          IndexOfInBounds(x, y);
          if cells[y, x] == null {
            emptyCells := emptyCells + [Pos(x, y)];
          }
          x := x + 1;
        }
        y := y + 1;
      }
      assert board[..CellCount] == board;
    }

    /** `getEntities`. */
    method GetEntities() returns (entities: seq<Placed>)
      requires Valid()
      ensures entities == EntitiesOf(board)
    {
      entities := [];
      var y := 0;
      while y < size
        invariant 0 <= y <= Size
        invariant entities == EntitiesOf(board[..y * Size])
      {
        var x := 0;
        while x < size
          invariant 0 <= x <= Size
          invariant entities == EntitiesOf(board[..y * Size + x])
        {
          ghost var k := y * Size + x;
          assert board[..k + 1][..k] == board[..k];
          IndexOfInBounds(x, y);
          var cell := cells[y, x];
          if cell != null {
            entities := entities + [Placed(x, y, cell)];
          }
          x := x + 1;
        }
        y := y + 1;
      }
      assert board[..CellCount] == board;
    }
  }
}
