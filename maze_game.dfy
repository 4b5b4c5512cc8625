/** The maze game: a player marker on a generated maze, moved one cell per
    arrow reaction through the open walls, and won by reaching the far
    corner. Coordinates are `(row, column)` = `Cell(x, y)` of the generator's
    grid, so `mazeGrid[row][column]` is the tile under the player. */
module Maze {
  import opened Wrappers
  import opened Game
  import opened MazeGenerator

  /** Maze dimensions `(rows, columns)` by difficulty 1, 2, 3; the rows are
      the generator's width and the columns its height. */
  const MazeSizes: seq<(nat, nat)> := [(8, 10), (16, 20), (24, 30)]

  /** Every size in the table is non-empty and has no more rows than columns. */
  lemma {:induction false} SizeInTable(difficulty: int)
    requires 1 <= difficulty <= 3
    ensures 0 < MazeSizes[difficulty - 1].0 <= MazeSizes[difficulty - 1].1
  {
    if difficulty == 1 {
      assert MazeSizes[0] == (8, 10);
    } else if difficulty == 2 {
      assert MazeSizes[1] == (16, 20);
    } else {
      assert MazeSizes[2] == (24, 30);
    }
  }

  /** `q` is the neighbour of `p` that `emoji` points at (no cell for a
      symbol that is not an arrow). */
  predicate Toward(emoji: string, p: Cell, q: Cell)
  {
    if emoji == Left then q.x == p.x && q.y + 1 == p.y
    else if emoji == Up then q.x + 1 == p.x && q.y == p.y
    else if emoji == Down then q.x == p.x + 1 && q.y == p.y
    else if emoji == Right then q.x == p.x && q.y == p.y + 1
    else false
  }

  /** The arrow that points the other way. */
  function Opposite(emoji: string): (o: string)
    requires emoji in [Left, Up, Down, Right]
    ensures forall p: Cell, q: Cell {:trigger Toward(emoji, p, q)} :: Toward(emoji, p, q) <==> Toward(o, q, p)
  {
    if emoji == Left then Right
    else if emoji == Right then Left
    else if emoji == Up then Down
    else Up
  }

  /** One reaction applied to the player's position on grid `g`. `columns`
      is the second component of the maze size: both the down and the right
      move compare against it. */
  function Move(g: Grid, columns: nat, p: Cell, emoji: string): (q: Cell)
    requires Shaped(g, |g|, columns) && InGrid(g, p)
    ensures q == p || Toward(emoji, p, q)
    ensures Enclosed(g, |g|, columns) ==> InGrid(g, q)
  {
    if emoji == Left then
      if p.y != 0 && !g[p.x][p.y - 1].fillRight then Cell(p.x, p.y - 1) else p
    else if emoji == Up then
      if p.x != 0 && !g[p.x - 1][p.y].fillBottom then Cell(p.x - 1, p.y) else p
    else if emoji == Down then
      if !g[p.x][p.y].fillBottom && p.x != columns - 1 then Cell(p.x + 1, p.y) else p
    else if emoji == Right then
      if !g[p.x][p.y].fillRight && p.y != columns - 1 then Cell(p.x, p.y + 1) else p
    else p
  }

  /** On an enclosed grid with no more rows than columns, an arrow moves the
      player to the neighbour it points at exactly when the wall between the
      two is open. (The down move compares the row with `columns - 1`; with
      more rows than columns it would refuse some open passages.) */
  lemma {:induction false} MoveMatchesPassages(g: Grid, columns: nat, p: Cell, emoji: string, q: Cell)
    requires Shaped(g, |g|, columns) && |g| <= columns && Enclosed(g, |g|, columns)
    requires InGrid(g, p) && Toward(emoji, p, q)
    ensures Move(g, columns, p, emoji) == q <==> Linked(g, p, q)
  {
    if emoji == Down && !g[p.x][p.y].fillBottom {
      assert p.x != |g| - 1;
    } else if emoji == Right && !g[p.x][p.y].fillRight {
      assert p.y != columns - 1;
    }
  }

  /** A move is undone by the opposite arrow. */
  lemma {:induction false} MoveReversible(g: Grid, columns: nat, p: Cell, emoji: string)
    requires Shaped(g, |g|, columns) && |g| <= columns && Enclosed(g, |g|, columns)
    requires InGrid(g, p) && emoji in [Left, Up, Down, Right]
    requires Move(g, columns, p, emoji) != p
    ensures Move(g, columns, Move(g, columns, p, emoji), Opposite(emoji)) == p
  {
    var q := Move(g, columns, p, emoji);
    MoveMatchesPassages(g, columns, p, emoji, q);
    MoveMatchesPassages(g, columns, q, Opposite(emoji), p);
  }

  /** The position after a sequence of reactions. */
  function Play(g: Grid, columns: nat, p: Cell, emojis: seq<string>): (q: Cell)
    requires Shaped(g, |g|, columns) && Enclosed(g, |g|, columns) && InGrid(g, p)
    ensures InGrid(g, q)
    decreases |emojis|
  {
    if |emojis| == 0 then p else Play(g, columns, Move(g, columns, p, emojis[0]), emojis[1..])
  }

  /** The arrow from a cell to a neighbour. */
  function Arrow(p: Cell, q: Cell): string
  {
    if q.x == p.x + 1 then Down
    else if q.x + 1 == p.x then Up
    else if q.y == p.y + 1 then Right
    else Left
  }

  /** The arrows that walk along a path. */
  function Arrows(path: seq<Cell>): (emojis: seq<string>)
    ensures |emojis| == if |path| == 0 then 0 else |path| - 1
    decreases |path|
  {
    if |path| <= 1 then [] else [Arrow(path[0], path[1])] + Arrows(path[1..])
  }

  /** Every walk through open passages can be played with arrows. */
  lemma {:induction false} PathIsPlayable(g: Grid, columns: nat, path: seq<Cell>)
    requires Shaped(g, |g|, columns) && |g| <= columns && Enclosed(g, |g|, columns)
    requires IsPath(g, path)
    ensures Play(g, columns, path[0], Arrows(path)) == path[|path| - 1]
    decreases |path|
  {
    if |path| > 1 {
      var p, q := path[0], path[1];
      assert Linked(g, p, q);
      assert Toward(Arrow(p, q), p, q);
      MoveMatchesPassages(g, columns, p, Arrow(p, q), q);
      assert IsPath(g, path[1..]) by {
        forall k | 0 <= k < |path[1..]| - 1
          ensures Linked(g, path[1..][k], path[1..][k + 1])
        {
          assert Linked(g, path[k + 1], path[k + 2]);
        }
      }
      PathIsPlayable(g, columns, path[1..]);
    }
  }

  /** In a perfect maze with no more rows than columns, every cell can be
      reached from every other by some sequence of reactions. */
  lemma {:induction false} Winnable(g: Grid, rows: nat, columns: nat, p: Cell, goal: Cell)
    requires Perfect(g, rows, columns) && rows <= columns
    requires InGrid(g, p) && InGrid(g, goal)
    ensures exists emojis :: Play(g, columns, p, emojis) == goal
  {
    assert Reach(g, p, goal);
    var path :| IsPath(g, path) && path[0] == p && path[|path| - 1] == goal;
    PathIsPlayable(g, columns, path);
  }

  /** The winning cell: the last row and the last column. */
  function Exit(g: Grid): Cell
    requires |g| > 0 && |g[0]| > 0
  {
    Cell(|g| - 1, |g[0]| - 1)
  }

  /** The maze game's invariant on its field values: before `Setup` there is
      no maze and the player is at the start; afterwards the maze is a
      perfect maze of the size the difficulty selects, and the player stands
      on it. */
  ghost predicate Playable(difficulty: int, size: Option<(nat, nat)>, g: Grid, player: Cell)
  {
    match size
    case None => g == [] && player == Cell(0, 0)
    case Some(dims) =>
      1 <= difficulty <= 3 && dims == MazeSizes[difficulty - 1] &&
      Perfect(g, dims.0, dims.1) && InGrid(g, player)
  }

  /** Installing a generated maze of the selected size keeps the invariant. */
  lemma {:induction false} SetupPlayable(difficulty: int, size: Option<(nat, nat)>, g: Grid, player: Cell,
                                         dims: (nat, nat), g': Grid)
    requires Playable(difficulty, size, g, player) && 1 <= difficulty <= 3
    requires dims == MazeSizes[difficulty - 1] && Perfect(g', dims.0, dims.1)
    ensures Playable(difficulty, Some(dims), g', player)
  {
    SizeInTable(difficulty);
  }

  /** A move keeps the player on the maze. */
  lemma {:induction false} MovePlayable(difficulty: int, dims: (nat, nat), g: Grid, player: Cell, emoji: string)
    requires Playable(difficulty, Some(dims), g, player)
    ensures Playable(difficulty, Some(dims), g, Move(g, dims.1, player, emoji))
  {
  }

  class MazeGame {
    const gameID: string
    const difficulty: int
    const ascii: bool
    /** The maze dimensions; `None` until `Setup` succeeds. */
    var size: Option<(nat, nat)>
    var mazeGrid: Grid
    var player: Cell

    ghost predicate Valid()
      reads this
    {
      Playable(difficulty, size, mazeGrid, player)
    }

    constructor(gameID: string, difficulty: int, ascii: bool)
      ensures Valid()
      ensures this.gameID == gameID && this.difficulty == difficulty && this.ascii == ascii
      ensures size == None && mazeGrid == [] && player == Cell(0, 0)
    {
      this.gameID := gameID;
      this.difficulty := difficulty;
      this.ascii := ascii;
      size := None;
      mazeGrid := [];
      player := Cell(0, 0);
    }

    /** Looks up the size for the difficulty and generates the maze from the
        caller's shuffle `order` of the edge list. A difficulty outside 1..3
        looks up no size, and spreading it into the generator's arguments
        throws. The player's position is kept. */
    method Setup(order: seq<Edge>) returns (outcome: Outcome)
      requires Valid()
      requires 1 <= difficulty <= 3 ==>
        ListsAllEdges(order, MazeSizes[difficulty - 1].0, MazeSizes[difficulty - 1].1)
      modifies this
      ensures Valid() && player == old(player)
      ensures !(1 <= difficulty <= 3) ==>
        outcome.Fail? && outcome.error.TypeError? && size == old(size) && mazeGrid == old(mazeGrid)
      ensures 1 <= difficulty <= 3 ==>
        outcome == Pass && size == Some(MazeSizes[difficulty - 1]) &&
        Perfect(mazeGrid, MazeSizes[difficulty - 1].0, MazeSizes[difficulty - 1].1)
    {
      if 1 <= difficulty <= 3 {
        var dims := MazeSizes[difficulty - 1];
        var grid := GenerateMaze(dims.0, dims.1, order);
        SetupPlayable(difficulty, size, mazeGrid, player, dims, grid);
        size, mazeGrid := Some(dims), grid;
        outcome := Pass;
      } else {
        outcome := Fail(TypeError("undefined is not iterable"));
      }
    }

    /** One reaction. Before `Setup` the size is undefined and destructuring
        it throws, whatever the symbol. */
    method Update(emoji: string) returns (outcome: Outcome)
      requires Valid()
      modifies this
      ensures Valid() && size == old(size) && mazeGrid == old(mazeGrid)
      ensures size.None? ==> outcome.Fail? && outcome.error.TypeError? && player == old(player)
      ensures size.Some? ==> outcome == Pass && player == Move(mazeGrid, size.value.1, old(player), emoji)
    {
      if size.None? {
        return Fail(TypeError("undefined is not iterable"));
      }
      MovePlayable(difficulty, size.value, mazeGrid, player, emoji);
      player := Move(mazeGrid, size.value.1, player, emoji);
      outcome := Pass;
    }

    /** `Win` when the player stands on the last row and the last column;
        there is no way to lose. */
    function GetStatus(): (s: Status)
      reads this
      ensures s != Loss
      ensures s == Win <==> |mazeGrid| > 0 && |mazeGrid[0]| > 0 && player == Exit(mazeGrid)
    {
      if player.x == |mazeGrid| - 1 && player.y == |mazeGrid[0]| - 1 then Win else Pending
    }

    /** Once the maze is set up, some sequence of reactions wins the game. */
    lemma {:induction false} CanWin()
      requires Valid() && size.Some?
      ensures |mazeGrid| > 0 && |mazeGrid[0]| > 0
      ensures exists emojis :: Play(mazeGrid, size.value.1, player, emojis) == Exit(mazeGrid)
    {
      var dims := size.value;
      Winnable(mazeGrid, dims.0, dims.1, player, Exit(mazeGrid));
    }
  }
}
