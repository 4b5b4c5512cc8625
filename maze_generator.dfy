/** Randomised Kruskal maze generation, src/utils/generateMaze.ts (duplicated
    inline in src/games/maze-game.ts). `grid[x][y]` is the tile in row `x`,
    column `y`; `fillBottom` is the wall between (x, y) and (x + 1, y),
    `fillRight` the wall between (x, y) and (x, y + 1). */
module MazeGenerator {
  import opened UnionTree

  datatype Direction = S | E

  /** An internal edge, named by the cell it starts from: `S` joins (x, y) to
      (x, y - 1), `E` joins (x, y) to (x - 1, y). */
  datatype Edge = Edge(x: nat, y: nat, direction: Direction)

  datatype Tile = Tile(fillBottom: bool, fillRight: bool)

  datatype Cell = Cell(x: nat, y: nat)

  type Grid = seq<seq<Tile>>

  /** `moveCoordinates`: the other end of an edge. */
  function MoveCoordinates(x: int, y: int, direction: Direction): (r: (int, int))
    ensures r.0 <= x && r.1 <= y && (x - r.0) + (y - r.1) == 1
    ensures r.0 == x <==> direction.S?
  {
    if direction == E then (x - 1, y) else (x, y - 1)
  }

  // ---------------------------------------------------------------------------
  // The edge list

  /** The edges the inner `flatMap` callback pushes for cell (x, y). */
  function CellEdges(x: nat, y: nat): seq<Edge>
  {
    (if y > 0 then [Edge(x, y, S)] else []) + (if x > 0 then [Edge(x, y, E)] else [])
  }

  /** Cells (x, 0) .. (x, h - 1), in order. */
  function ColumnEdges(x: nat, h: nat): seq<Edge>
  {
    if h == 0 then [] else ColumnEdges(x, h - 1) + CellEdges(x, h - 1)
  }

  /** The edge list before shuffling: x outermost, then y, `S` before `E`. */
  function EdgeList(w: nat, h: nat): seq<Edge>
  {
    if w == 0 then [] else EdgeList(w - 1, h) + ColumnEdges(w - 1, h)
  }

  predicate ValidEdge(e: Edge, w: nat, h: nat)
  {
    e.x < w && e.y < h && (e.direction == S ==> e.y > 0) && (e.direction == E ==> e.x > 0)
  }

  lemma {:induction false} ColumnEdgesContents(x: nat, h: nat, e: Edge)
    ensures e in ColumnEdges(x, h) <==> e.x == x && ValidEdge(e, x + 1, h)
  {
    if h > 0 {
      ColumnEdgesContents(x, h - 1, e);
    }
  }

  /** The list holds exactly the internal edges: one `S` edge per cell with
      y > 0 and one `E` edge per cell with x > 0. */
  lemma {:induction false} EdgeListContents(w: nat, h: nat, e: Edge)
    ensures e in EdgeList(w, h) <==> ValidEdge(e, w, h)
  {
    if w > 0 {
      EdgeListContents(w - 1, h, e);
      ColumnEdgesContents(w - 1, h, e);
    }
  }

  lemma {:induction false} ColumnEdgesLength(x: nat, h: nat)
    ensures |ColumnEdges(x, h)| == (if h == 0 then 0 else h - 1) + (if x > 0 then h else 0)
  {
    if h > 0 {
      ColumnEdgesLength(x, h - 1);
    }
  }

  /** There are `w*(h-1) + (w-1)*h` internal edges. */
  lemma {:induction false} EdgeListLength(w: nat, h: nat)
    requires w > 0 && h > 0
    ensures |EdgeList(w, h)| == w * (h - 1) + (w - 1) * h
  {
    ColumnEdgesLength(w - 1, h);
    if w > 1 {
      EdgeListLength(w - 1, h);
      assert w * (h - 1) == (w - 1) * (h - 1) + (h - 1);
      assert (w - 1) * h == (w - 2) * h + h;
    }
  }

  // ---------------------------------------------------------------------------
  // Cells, node numbering and passages

  /** `w * h`, written as repeated addition so that the proofs below stay
      linear. */
  function Area(w: nat, h: nat): nat
  {
    if w == 0 then 0 else Area(w - 1, h) + h
  }

  lemma {:induction false} AreaIsProduct(w: nat, h: nat)
    ensures Area(w, h) == w * h
  {
    if w > 0 {
      AreaIsProduct(w - 1, h);
    }
  }

  lemma {:induction false} AreaMonotone(a: nat, b: nat, h: nat)
    requires a < b
    ensures Area(a, h) + h <= Area(b, h)
    decreases b
  {
    if a + 1 < b {
      AreaMonotone(a, b - 1, h);
    }
  }

  /** The number `sets[c.x][c.y]` has in the union forest: `c.x * h + c.y`. */
  function Id(c: Cell, h: nat): nat
  {
    Area(c.x, h) + c.y
  }

  /** `Id` for a cell of a `w` by `h` grid: a node of the forest. */
  function Node(c: Cell, w: nat, h: nat): (i: nat)
    requires c.x < w && c.y < h
    ensures i < Area(w, h)
  {
    IdInRange(c, w, h);
    Id(c, h)
  }

  /** The cell numbered `i`: `(i / h, i % h)`. */
  function CellOf(i: nat, h: nat): Cell
    requires h > 0
  {
    if i < h then Cell(0, i) else var c := CellOf(i - h, h); Cell(c.x + 1, c.y)
  }

  lemma {:induction false} IdInRange(c: Cell, w: nat, h: nat)
    requires c.x < w && c.y < h
    ensures Id(c, h) < Area(w, h)
  {
    if c.x + 1 < w {
      AreaMonotone(c.x + 1, w, h);
    }
  }

  lemma {:induction false} IdInjective(c: Cell, d: Cell, h: nat)
    requires c.y < h && d.y < h && Id(c, h) == Id(d, h)
    ensures c == d
  {
    if c.x < d.x {
      AreaMonotone(c.x, d.x, h);
    } else if d.x < c.x {
      AreaMonotone(d.x, c.x, h);
    }
  }

  lemma {:induction false} CellOfId(c: Cell, h: nat)
    requires c.y < h
    ensures CellOf(Id(c, h), h) == c
    decreases c.x
  {
    if c.x > 0 {
      CellOfId(Cell(c.x - 1, c.y), h);
    }
  }

  /** Every node numbers exactly one cell. */
  lemma {:induction false} CellOfNode(i: nat, w: nat, h: nat)
    requires i < Area(w, h)
    ensures h > 0 && CellOf(i, h).x < w && CellOf(i, h).y < h && Id(CellOf(i, h), h) == i
  {
    if i >= h {
      CellOfNode(i - h, w - 1, h);
    }
  }

  predicate Shaped(g: Grid, w: nat, h: nat)
  {
    |g| == w && forall x | 0 <= x < |g| :: |g[x]| == h
  }

  predicate InGrid(g: Grid, c: Cell)
  {
    c.x < |g| && c.y < |g[c.x]|
  }

  /** `a` and `b` are neighbours and the wall between them is open. */
  predicate Linked(g: Grid, a: Cell, b: Cell)
  {
    InGrid(g, a) && InGrid(g, b) &&
    ((b.x == a.x + 1 && b.y == a.y && !g[a.x][a.y].fillBottom) ||
     (a.x == b.x + 1 && a.y == b.y && !g[b.x][b.y].fillBottom) ||
     (b.y == a.y + 1 && b.x == a.x && !g[a.x][a.y].fillRight) ||
     (a.y == b.y + 1 && a.x == b.x && !g[b.x][b.y].fillRight))
  }

  /** A walk through open passages. */
  predicate IsPath(g: Grid, p: seq<Cell>)
  {
    |p| >= 1 &&
    (forall k | 0 <= k < |p| :: InGrid(g, p[k])) &&
    (forall k | 0 <= k < |p| - 1 :: Linked(g, p[k], p[k + 1]))
  }

  /** A perfect maze: every cell can reach every other one through open
      passages, the far walls are up, and a `w` by `h` grid has exactly
      `w * h - 1` passages, so the passages form a spanning tree. */
  ghost predicate Perfect(g: Grid, w: nat, h: nat)
  {
    Shaped(g, w, h) && Enclosed(g, w, h) &&
    (0 < w && 0 < h ==> |OpenWalls(g, w, h)| == w * h - 1) &&
    forall a: Cell, b: Cell {:trigger Reach(g, a, b)} | InGrid(g, a) && InGrid(g, b) :: Reach(g, a, b)
  }

  /** The walls on the far edges are up: tiles of the last row (x = w-1)
      keep `fillBottom` and tiles of the last column (y = h-1) keep
      `fillRight`. */
  predicate Enclosed(g: Grid, w: nat, h: nat)
    requires Shaped(g, w, h)
  {
    forall x, y {:trigger g[x][y]} | 0 <= x < w && 0 <= y < h ::
      (x == w - 1 ==> g[x][y].fillBottom) && (y == h - 1 ==> g[x][y].fillRight)
  }

  ghost predicate Reach(g: Grid, a: Cell, b: Cell)
  {
    exists p :: IsPath(g, p) && p[0] == a && p[|p| - 1] == b
  }

  /** Whether the wall that edge `e` stands for has been cleared. */
  predicate Cleared(g: Grid, e: Edge)
  {
    if e.direction == S then
      e.x < |g| && 0 < e.y <= |g[e.x]| && !g[e.x][e.y - 1].fillRight
    else
      0 < e.x <= |g| && e.y < |g[e.x - 1]| && !g[e.x - 1][e.y].fillBottom
  }

  /** The cleared walls, each named by its edge. */
  ghost function OpenWalls(g: Grid, w: nat, h: nat): set<Edge>
  {
    set x: nat, y: nat, d: Direction | x < w && y < h && ValidEdge(Edge(x, y, d), w, h) && Cleared(g, Edge(x, y, d))
      :: Edge(x, y, d)
  }

  /** Walls are only ever removed going from `g` to `g'`. */
  lemma {:induction false} OpenWallsMember(g: Grid, w: nat, h: nat, e: Edge)
    ensures e in OpenWalls(g, w, h) <==> ValidEdge(e, w, h) && Cleared(g, e)
  {
    if ValidEdge(e, w, h) && Cleared(g, e) {
      assert e == Edge(e.x, e.y, e.direction);
    }
  }

  ghost predicate OnlyOpened(g: Grid, g': Grid)
  {
    |g'| == |g| &&
    (forall x | 0 <= x < |g| :: |g'[x]| == |g[x]|) &&
    (forall x, y | 0 <= x < |g| && 0 <= y < |g[x]| ::
      (!g[x][y].fillBottom ==> !g'[x][y].fillBottom) && (!g[x][y].fillRight ==> !g'[x][y].fillRight))
  }

  function Reverse(p: seq<Cell>): (r: seq<Cell>)
    ensures |r| == |p| && forall k | 0 <= k < |p| :: r[k] == p[|p| - 1 - k]
  {
    seq(|p|, k requires 0 <= k < |p| => p[|p| - 1 - k])
  }

  lemma {:induction false} ReversePath(g: Grid, p: seq<Cell>)
    requires IsPath(g, p)
    ensures IsPath(g, Reverse(p))
  {
    var r := Reverse(p);
    forall k | 0 <= k < |r| - 1
      ensures Linked(g, r[k], r[k + 1])
    {
      assert r[k] == p[|p| - 1 - k] && r[k + 1] == p[|p| - 2 - k];
      assert Linked(g, p[|p| - 2 - k], p[|p| - 1 - k]);
    }
  }

  /** Two walks glued where the first ends and the second starts. */
  lemma {:induction false} JoinPaths(g: Grid, p: seq<Cell>, q: seq<Cell>)
    requires IsPath(g, p) && IsPath(g, q) && p[|p| - 1] == q[0]
    ensures IsPath(g, p + q[1..]) && (p + q[1..])[0] == p[0]
    ensures (p + q[1..])[|p + q[1..]| - 1] == q[|q| - 1]
  {
    var r := p + q[1..];
    forall k | 0 <= k < |r| - 1
      ensures Linked(g, r[k], r[k + 1])
    {
      if k == |p| - 1 {
        assert r[k] == q[0] && r[k + 1] == q[1];
      } else if k >= |p| {
        assert r[k] == q[k - |p| + 1] && r[k + 1] == q[k - |p| + 2];
      }
    }
  }

  /** Two walks glued across one open passage from the end of the first to the
      start of the second. */
  lemma {:induction false} LinkPaths(g: Grid, p: seq<Cell>, q: seq<Cell>)
    requires IsPath(g, p) && IsPath(g, q) && Linked(g, p[|p| - 1], q[0])
    ensures IsPath(g, p + q) && (p + q)[0] == p[0] && (p + q)[|p + q| - 1] == q[|q| - 1]
  {
    var r := p + q;
    forall k | 0 <= k < |r| - 1
      ensures Linked(g, r[k], r[k + 1])
    {
      if k == |p| - 1 {
        assert r[k] == p[|p| - 1] && r[k + 1] == q[0];
      } else if k >= |p| {
        assert r[k] == q[k - |p|] && r[k + 1] == q[k - |p| + 1];
      }
    }
  }

  lemma {:induction false} PathSurvivesOpening(g: Grid, g': Grid, p: seq<Cell>)
    requires IsPath(g, p) && OnlyOpened(g, g')
    ensures IsPath(g', p)
  {
    forall k | 0 <= k < |p| - 1
      ensures Linked(g', p[k], p[k + 1])
    {
      assert Linked(g, p[k], p[k + 1]);
    }
  }

  // ---------------------------------------------------------------------------
  // The Kruskal invariant

  /** The cell an edge leads to; `MoveCoordinates` computes it. */
  function OtherEnd(e: Edge): Cell
    requires (e.direction == S ==> e.y > 0) && (e.direction == E ==> e.x > 0)
  {
    if e.direction == E then Cell(e.x - 1, e.y) else Cell(e.x, e.y - 1)
  }

  lemma {:induction false} MoveCoordinatesIsOtherEnd(e: Edge, w: nat, h: nat)
    requires ValidEdge(e, w, h)
    ensures MoveCoordinates(e.x, e.y, e.direction) == (OtherEnd(e).x, OtherEnd(e).y)
    ensures OtherEnd(e).x < w && OtherEnd(e).y < h
  {
  }

  /** The grid with the wall of edge `e` cleared: `S` clears the right wall of
      the other end, `E` its bottom wall. */
  function OpenWall(g: Grid, e: Edge): Grid
    requires (e.direction == S ==> e.y > 0) && (e.direction == E ==> e.x > 0)
    requires InGrid(g, OtherEnd(e))
  {
    var b := OtherEnd(e);
    if e.direction == S then g[b.x := g[b.x][b.y := g[b.x][b.y].(fillRight := false)]]
    else g[b.x := g[b.x][b.y := g[b.x][b.y].(fillBottom := false)]]
  }

  /** The grid `generateMaze` starts from: every wall up. */
  function InitialGrid(w: nat, h: nat): (g: Grid)
    ensures Shaped(g, w, h) && Enclosed(g, w, h)
    ensures OpenWalls(g, w, h) == {}
  {
    seq(w, _ => seq(h, _ => Tile(true, true)))
  }

  ghost function ClassSet(L: seq<nat>): set<nat>
  {
    set i | 0 <= i < |L| :: L[i]
  }

  /** Every open wall lies between two cells of one class; walls on the bottom
      and right border are never open. */
  ghost predicate OpenWallsWithinClasses(g: Grid, w: nat, h: nat, L: seq<nat>)
    requires Shaped(g, w, h) && |L| == Area(w, h)
  {
    (forall x, y {:trigger g[x][y]} | 0 <= x < w && 0 <= y < h && !g[x][y].fillBottom ::
      x + 1 < w && L[Node(Cell(x, y), w, h)] == L[Node(Cell(x + 1, y), w, h)]) &&
    (forall x, y {:trigger g[x][y]} | 0 <= x < w && 0 <= y < h && !g[x][y].fillRight ::
      y + 1 < h && L[Node(Cell(x, y), w, h)] == L[Node(Cell(x, y + 1), w, h)])
  }

  /** `route[Node(c)]` is a walk through open passages from `c` to the cell
      of `c`'s root. */
  ghost predicate RoutesToRoots(g: Grid, w: nat, h: nat, L: seq<nat>, route: seq<seq<Cell>>)
    requires Shaped(g, w, h) && |L| == Area(w, h) && |route| == Area(w, h)
  {
    forall c: Cell {:trigger route[Node(c, w, h)]} | c.x < w && c.y < h ::
      var r := route[Node(c, w, h)];
      IsPath(g, r) && r[0] == c && Id(r[|r| - 1], h) == L[Node(c, w, h)]
  }

  /** The loop invariant of generateMaze over the grid, the classes `L` of the
      forest and a ghost route from every cell to its root. */
  ghost predicate Kruskal(g: Grid, w: nat, h: nat, L: seq<nat>, route: seq<seq<Cell>>)
  {
    Shaped(g, w, h) && |L| == Area(w, h) && |route| == Area(w, h) &&
    OpenWallsWithinClasses(g, w, h, L) &&
    RoutesToRoots(g, w, h, L, route) &&
    |OpenWalls(g, w, h)| + |ClassSet(L)| == Area(w, h)
  }

  lemma {:induction false} IdentityClassSet(n: nat)
    ensures |ClassSet(seq(n, i => i))| == n
  {
    if n > 0 {
      var L, K := seq(n, i => i), seq(n - 1, i => i);
      assert ClassSet(L) == ClassSet(K) + {n - 1} by {
        forall v | v in ClassSet(L) ensures v in ClassSet(K) + {n - 1} {
          var j :| 0 <= j < n && L[j] == v;
          if j < n - 1 { assert K[j] == v; }
        }
        forall v | v in ClassSet(K) ensures v in ClassSet(L) {
          var j :| 0 <= j < n - 1 && K[j] == v;
          assert L[j] == v;
        }
        assert L[n - 1] == n - 1;
      }
      IdentityClassSet(n - 1);
    }
  }

  /** The invariant holds for the all-walls grid and singleton classes, with
      the one-cell route from each cell to itself. */
  lemma {:induction false} KruskalInit(w: nat, h: nat, L: seq<nat>) returns (route: seq<seq<Cell>>)
    requires |L| == Area(w, h) && forall i | 0 <= i < |L| :: L[i] == i
    ensures Kruskal(InitialGrid(w, h), w, h, L, route)
  {
    route := seq(Area(w, h), i requires 0 <= i => if h > 0 then [CellOf(i, h)] else []);
    forall c: Cell | c.x < w && c.y < h
      ensures route[Node(c, w, h)] == [c]
    {
      CellOfId(c, h);
    }
    assert L == seq(Area(w, h), i => i);
    IdentityClassSet(Area(w, h));
  }

  /** Walks through open passages never leave a class. */
  lemma {:induction false} PathStaysInClass(g: Grid, w: nat, h: nat, L: seq<nat>, p: seq<Cell>)
    requires Shaped(g, w, h) && |L| == Area(w, h) && OpenWallsWithinClasses(g, w, h, L)
    requires IsPath(g, p)
    ensures L[Node(p[0], w, h)] == L[Node(p[|p| - 1], w, h)]
    decreases |p|
  {
    if |p| > 1 {
      var q := p[1..];
      assert IsPath(g, q) by {
        forall k | 0 <= k < |q| - 1 ensures Linked(g, q[k], q[k + 1]) {
          assert q[k] == p[k + 1] && q[k + 1] == p[k + 2];
        }
      }
      PathStaysInClass(g, w, h, L, q);
      var a, b := p[0], p[1];
      assert Linked(g, a, b);
      assert a.x < w && a.y < h && b.x < w && b.y < h;
    }
  }

  /** Cells of one class are joined by open passages: follow one route to the
      root and the other back. */
  lemma {:induction false} SameClassReach(g: Grid, w: nat, h: nat, L: seq<nat>, route: seq<seq<Cell>>, a: Cell, b: Cell)
    requires Shaped(g, w, h) && |L| == Area(w, h) && |route| == Area(w, h)
    requires RoutesToRoots(g, w, h, L, route)
    requires a.x < w && a.y < h && b.x < w && b.y < h
    requires L[Node(a, w, h)] == L[Node(b, w, h)]
    ensures Reach(g, a, b)
  {
    var ra, rb := route[Node(a, w, h)], route[Node(b, w, h)];
    assert IsPath(g, ra) && IsPath(g, rb);
    IdInjective(ra[|ra| - 1], rb[|rb| - 1], h);
    ReversePath(g, rb);
    JoinPaths(g, ra, Reverse(rb));
    var p := ra + Reverse(rb)[1..];
    assert IsPath(g, p) && p[0] == a && p[|p| - 1] == b;
  }

  /** The heart of the loop invariant: two cells are in one class exactly when
      open passages connect them. */
  lemma {:induction false} ClassesMatchPassages(g: Grid, w: nat, h: nat, L: seq<nat>, route: seq<seq<Cell>>, a: Cell, b: Cell)
    requires Kruskal(g, w, h, L, route)
    requires a.x < w && a.y < h && b.x < w && b.y < h
    ensures L[Node(a, w, h)] == L[Node(b, w, h)] <==> Reach(g, a, b)
  {
    if L[Node(a, w, h)] == L[Node(b, w, h)] {
      SameClassReach(g, w, h, L, route, a, b);
    }
    if Reach(g, a, b) {
      var p :| IsPath(g, p) && p[0] == a && p[|p| - 1] == b;
      PathStaysInClass(g, w, h, L, p);
    }
  }

  lemma {:induction false} MergeClassSet(L: seq<nat>, i1: nat, i2: nat)
    requires i1 < |L| && i2 < |L| && L[i1] != L[i2]
    ensures ClassSet(Merge(L, L[i2], L[i1])) == ClassSet(L) - {L[i2]}
    ensures |ClassSet(Merge(L, L[i2], L[i1]))| == |ClassSet(L)| - 1
  {
    var M := Merge(L, L[i2], L[i1]);
    assert M[i1] == L[i1];
    forall v | v in ClassSet(L) - {L[i2]} ensures v in ClassSet(M) {
      var j :| 0 <= j < |L| && L[j] == v;
      assert M[j] == v;
    }
  }

  lemma {:induction false} UnionKeepsWallsWithinClasses(g: Grid, w: nat, h: nat, L: seq<nat>, e: Edge)
    requires Shaped(g, w, h) && |L| == Area(w, h) && ValidEdge(e, w, h)
    requires OpenWallsWithinClasses(g, w, h, L)
    ensures Shaped(OpenWall(g, e), w, h)
    ensures OpenWallsWithinClasses(OpenWall(g, e), w, h,
      Merge(L, L[Node(OtherEnd(e), w, h)], L[Node(Cell(e.x, e.y), w, h)]))
  {
    var a, b := Cell(e.x, e.y), OtherEnd(e);
    var ra, rb := L[Node(a, w, h)], L[Node(b, w, h)];
    var g': Grid, L' := OpenWall(g, e), Merge(L, rb, ra);
    forall x, y | 0 <= x < w && 0 <= y < h && !g'[x][y].fillBottom
      ensures x + 1 < w && L'[Node(Cell(x, y), w, h)] == L'[Node(Cell(x + 1, y), w, h)]
    {
      if Cell(x, y) == b && e.direction == E {
        assert Cell(x + 1, y) == a;
      } else {
        assert g'[x][y].fillBottom == g[x][y].fillBottom;
      }
    }
    forall x, y | 0 <= x < w && 0 <= y < h && !g'[x][y].fillRight
      ensures y + 1 < h && L'[Node(Cell(x, y), w, h)] == L'[Node(Cell(x, y + 1), w, h)]
    {
      if Cell(x, y) == b && e.direction == S {
        assert Cell(x, y + 1) == a;
      } else {
        assert g'[x][y].fillRight == g[x][y].fillRight;
      }
    }
  }

  lemma {:induction false} UnionOpensOneWall(g: Grid, w: nat, h: nat, L: seq<nat>, e: Edge)
    requires Shaped(g, w, h) && |L| == Area(w, h) && ValidEdge(e, w, h)
    requires OpenWallsWithinClasses(g, w, h, L)
    requires L[Node(Cell(e.x, e.y), w, h)] != L[Node(OtherEnd(e), w, h)]
    ensures OpenWalls(OpenWall(g, e), w, h) == OpenWalls(g, w, h) + {e}
    ensures e !in OpenWalls(g, w, h)
  {
    var b := OtherEnd(e);
    assert !Cleared(g, e) by {
      if e.direction == S {
        assert Cell(b.x, b.y + 1) == Cell(e.x, e.y);
      } else {
        assert Cell(b.x + 1, b.y) == Cell(e.x, e.y);
      }
    }
    var g' := OpenWall(g, e);
    forall f: Edge
      ensures f in OpenWalls(g', w, h) <==> f in OpenWalls(g, w, h) || f == e
    {
      OpenWallsMember(g', w, h, f);
      OpenWallsMember(g, w, h, f);
      if ValidEdge(f, w, h) {
        OpeningClearsOnlyIt(g, w, h, e, f);
      }
    }
    OpenWallsMember(g, w, h, e);
  }

  /** Opening the wall of `e` clears `e` and leaves every other edge as it was. */
  lemma {:induction false} OpeningClearsOnlyIt(g: Grid, w: nat, h: nat, e: Edge, f: Edge)
    requires Shaped(g, w, h) && ValidEdge(e, w, h) && ValidEdge(f, w, h)
    ensures Cleared(OpenWall(g, e), f) <==> Cleared(g, f) || f == e
  {
    var g' := OpenWall(g, e);
    var b := OtherEnd(e);
    if f.direction == S {
      assert Cleared(g', f) == !g'[f.x][f.y - 1].fillRight;
    } else {
      assert Cleared(g', f) == !g'[f.x - 1][f.y].fillBottom;
    }
  }

  /** The extended route of a cell in the absorbed class: to the root of that
      class, back along the route of `b` to `b`, across the new passage to `a`,
      and along the route of `a` to the surviving root. */
  lemma {:induction false} ExtendRoute(g': Grid, r: seq<Cell>, fromB: seq<Cell>, toA: seq<Cell>)
    requires IsPath(g', r) && IsPath(g', fromB) && IsPath(g', toA)
    requires r[|r| - 1] == fromB[|fromB| - 1] && Linked(g', fromB[0], toA[0])
    ensures IsPath(g', r + Reverse(fromB)[1..] + toA)
    ensures (r + Reverse(fromB)[1..] + toA)[0] == r[0]
    ensures (r + Reverse(fromB)[1..] + toA)[|r + Reverse(fromB)[1..] + toA| - 1] == toA[|toA| - 1]
  {
    ReversePath(g', fromB);
    JoinPaths(g', r, Reverse(fromB));
    LinkPaths(g', r + Reverse(fromB)[1..], toA);
  }

  /** The routes after the union of the class of `b` (root `rb`) into the
      class of `a`: a cell of the absorbed class walks to its old root, back
      along the route of `b` to `b`, across the new passage to `a`, and along
      the route of `a`. */
  function UnionRoutes(route: seq<seq<Cell>>, L: seq<nat>, rb: nat, ia: nat, ib: nat): (r: seq<seq<Cell>>)
    requires |L| == |route| && ia < |route| && ib < |route| && |route[ib]| > 0
    ensures |r| == |route|
  {
    seq(|route|, i requires 0 <= i < |route| =>
      if L[i] == rb then route[i] + Reverse(route[ib])[1..] + route[ia] else route[i])
  }

  lemma {:induction false} UnionRouteOfCell(g: Grid, w: nat, h: nat, L: seq<nat>, route: seq<seq<Cell>>, e: Edge, c: Cell)
    requires Shaped(g, w, h) && |L| == Area(w, h) && |route| == Area(w, h) && ValidEdge(e, w, h)
    requires RoutesToRoots(g, w, h, L, route)
    requires L[Node(Cell(e.x, e.y), w, h)] != L[Node(OtherEnd(e), w, h)]
    requires c.x < w && c.y < h
    ensures Shaped(OpenWall(g, e), w, h)
    ensures var ia, ib := Node(Cell(e.x, e.y), w, h), Node(OtherEnd(e), w, h);
      var r := UnionRoutes(route, L, L[ib], ia, ib)[Node(c, w, h)];
      IsPath(OpenWall(g, e), r) && r[0] == c &&
      Id(r[|r| - 1], h) == Merge(L, L[ib], L[ia])[Node(c, w, h)]
  {
    var a, b := Cell(e.x, e.y), OtherEnd(e);
    var g': Grid := OpenWall(g, e);
    assert OnlyOpened(g, g');
    assert Linked(g', b, a);
    var ra, fromB, r := route[Node(a, w, h)], route[Node(b, w, h)], route[Node(c, w, h)];
    PathSurvivesOpening(g, g', ra);
    PathSurvivesOpening(g, g', fromB);
    PathSurvivesOpening(g, g', r);
    if L[Node(c, w, h)] == L[Node(b, w, h)] {
      assert InGrid(g', r[|r| - 1]) && InGrid(g', fromB[|fromB| - 1]);
      IdInjective(r[|r| - 1], fromB[|fromB| - 1], h);
      ExtendRoute(g', r, fromB, ra);
    }
  }

  lemma {:induction false} UnionKeepsRoutes(g: Grid, w: nat, h: nat, L: seq<nat>, route: seq<seq<Cell>>, e: Edge)
    returns (route': seq<seq<Cell>>)
    requires Shaped(g, w, h) && |L| == Area(w, h) && |route| == Area(w, h) && ValidEdge(e, w, h)
    requires RoutesToRoots(g, w, h, L, route)
    requires L[Node(Cell(e.x, e.y), w, h)] != L[Node(OtherEnd(e), w, h)]
    ensures Shaped(OpenWall(g, e), w, h) && |route'| == Area(w, h)
    ensures RoutesToRoots(OpenWall(g, e), w, h,
      Merge(L, L[Node(OtherEnd(e), w, h)], L[Node(Cell(e.x, e.y), w, h)]), route')
  {
    var ia, ib := Node(Cell(e.x, e.y), w, h), Node(OtherEnd(e), w, h);
    route' := UnionRoutes(route, L, L[ib], ia, ib);
    UnionRouteOfCell(g, w, h, L, route, e, Cell(0, 0));
    forall c: Cell | c.x < w && c.y < h
      ensures var r := route'[Node(c, w, h)];
        IsPath(OpenWall(g, e), r) && r[0] == c && Id(r[|r| - 1], h) == Merge(L, L[ib], L[ia])[Node(c, w, h)]
    {
      UnionRouteOfCell(g, w, h, L, route, e, c);
    }
  }

  /** One successful union step preserves the invariant. */
  lemma {:induction false} KruskalUnion(g: Grid, w: nat, h: nat, L: seq<nat>, route: seq<seq<Cell>>, e: Edge)
    returns (route': seq<seq<Cell>>)
    requires Kruskal(g, w, h, L, route) && ValidEdge(e, w, h)
    requires L[Node(Cell(e.x, e.y), w, h)] != L[Node(OtherEnd(e), w, h)]
    ensures Kruskal(OpenWall(g, e), w, h,
                    Merge(L, L[Node(OtherEnd(e), w, h)], L[Node(Cell(e.x, e.y), w, h)]), route')
  {
    UnionKeepsWallsWithinClasses(g, w, h, L, e);
    UnionOpensOneWall(g, w, h, L, e);
    MergeClassSet(L, Node(Cell(e.x, e.y), w, h), Node(OtherEnd(e), w, h));
    route' := UnionKeepsRoutes(g, w, h, L, route, e);
  }

  // ---------------------------------------------------------------------------
  // After the loop: one class

  /** Joined along every `S` edge, a column is one class. */
  lemma {:induction false} ColumnInOneClass(w: nat, h: nat, L: seq<nat>, x: nat, y: nat)
    requires |L| == Area(w, h) && x < w && y < h
    requires forall e {:trigger ValidEdge(e, w, h)} | ValidEdge(e, w, h) ::
      L[Node(Cell(e.x, e.y), w, h)] == L[Node(OtherEnd(e), w, h)]
    ensures L[Node(Cell(x, y), w, h)] == L[Node(Cell(x, 0), w, h)]
  {
    if y > 0 {
      assert ValidEdge(Edge(x, y, S), w, h);
      ColumnInOneClass(w, h, L, x, y - 1);
    }
  }

  /** Joined along every `E` edge of the first column, row 0 is one class. */
  lemma {:induction false} FirstColumnInOneClass(w: nat, h: nat, L: seq<nat>, x: nat)
    requires |L| == Area(w, h) && x < w && 0 < h
    requires forall e {:trigger ValidEdge(e, w, h)} | ValidEdge(e, w, h) ::
      L[Node(Cell(e.x, e.y), w, h)] == L[Node(OtherEnd(e), w, h)]
    ensures L[Node(Cell(x, 0), w, h)] == L[Node(Cell(0, 0), w, h)]
  {
    if x > 0 {
      assert ValidEdge(Edge(x, 0, E), w, h);
      FirstColumnInOneClass(w, h, L, x - 1);
    }
  }

  /** Once the two ends of every internal edge share a class, there is a
      single class. */
  lemma {:induction false} EdgesJoinEverything(w: nat, h: nat, L: seq<nat>)
    requires |L| == Area(w, h) && 0 < w && 0 < h
    requires forall e {:trigger ValidEdge(e, w, h)} | ValidEdge(e, w, h) ::
      L[Node(Cell(e.x, e.y), w, h)] == L[Node(OtherEnd(e), w, h)]
    ensures forall i | 0 <= i < |L| :: L[i] == L[0]
    ensures ClassSet(L) == {L[0]}
  {
    forall i | 0 <= i < |L|
      ensures L[i] == L[0]
    {
      CellOfNode(i, w, h);
      var c := CellOf(i, h);
      ColumnInOneClass(w, h, L, c.x, c.y);
      FirstColumnInOneClass(w, h, L, c.x);
      assert Node(Cell(0, 0), w, h) == 0;
    }
  }

  /** The two ends of edge `e` share a class. */
  ghost predicate Joined(L: seq<nat>, w: nat, h: nat, e: Edge)
    requires |L| == Area(w, h) && ValidEdge(e, w, h)
  {
    L[Node(Cell(e.x, e.y), w, h)] == L[Node(OtherEnd(e), w, h)]
  }

  /** Every edge of `es` is internal and its two ends share a class. */
  ghost predicate AllJoined(L: seq<nat>, w: nat, h: nat, es: seq<Edge>)
    requires |L| == Area(w, h)
    decreases |es|
  {
    |es| == 0 || (ValidEdge(es[0], w, h) && Joined(L, w, h, es[0]) && AllJoined(L, w, h, es[1..]))
  }

  lemma {:induction false} AllJoinedAt(L: seq<nat>, w: nat, h: nat, es: seq<Edge>, k: nat)
    requires |L| == Area(w, h) && AllJoined(L, w, h, es) && k < |es|
    ensures ValidEdge(es[k], w, h) && Joined(L, w, h, es[k])
    decreases k
  {
    if k > 0 {
      AllJoinedAt(L, w, h, es[1..], k - 1);
    }
  }

  /** Processing `es[n]` extends the joined suffix by one edge. */
  lemma {:induction false} AllJoinedCons(L: seq<nat>, w: nat, h: nat, e: Edge, es: seq<Edge>)
    requires |L| == Area(w, h) && AllJoined(L, w, h, es)
    requires ValidEdge(e, w, h) && Joined(L, w, h, e)
    ensures AllJoined(L, w, h, [e] + es)
  {
    assert ([e] + es)[1..] == es;
  }
  lemma {:induction false} AllJoinedMerge(L: seq<nat>, w: nat, h: nat, es: seq<Edge>, i1: nat, i2: nat)
    requires |L| == Area(w, h) && AllJoined(L, w, h, es) && i1 < |L| && i2 < |L|
    ensures AllJoined(Merge(L, L[i2], L[i1]), w, h, es)
    decreases |es|
  {
    if |es| > 0 {
      AllJoinedMerge(L, w, h, es[1..], i1, i2);
    }
  }

  /** What the invariant gives once every edge has been processed. */
  lemma {:induction false} KruskalDone(g: Grid, w: nat, h: nat, L: seq<nat>, route: seq<seq<Cell>>, order: seq<Edge>)
    requires Kruskal(g, w, h, L, route) && AllJoined(L, w, h, order)
    requires forall e {:trigger ValidEdge(e, w, h)} | ValidEdge(e, w, h) :: e in order
    ensures Enclosed(g, w, h)
    ensures 0 < w && 0 < h ==> |OpenWalls(g, w, h)| == w * h - 1
    ensures forall a: Cell, b: Cell {:trigger Reach(g, a, b)} | InGrid(g, a) && InGrid(g, b) :: Reach(g, a, b)
  {
    AreaIsProduct(w, h);
    forall e {:trigger ValidEdge(e, w, h)} | ValidEdge(e, w, h)
      ensures L[Node(Cell(e.x, e.y), w, h)] == L[Node(OtherEnd(e), w, h)]
    {
      var k :| 0 <= k < |order| && order[k] == e;
      AllJoinedAt(L, w, h, order, k);
    }
    if 0 < w && 0 < h {
      EdgesJoinEverything(w, h, L);
    }
    forall a: Cell, b: Cell | InGrid(g, a) && InGrid(g, b)
      ensures Reach(g, a, b)
    {
      ClassesMatchPassages(g, w, h, L, route, a, b);
      assert L[Node(a, w, h)] == L[0] == L[Node(b, w, h)];
    }
  }

  /** `order` lists every internal edge of a `w` by `h` grid, and nothing
      else. */
  ghost predicate ListsAllEdges(order: seq<Edge>, w: nat, h: nat)
  {
    (forall k | 0 <= k < |order| :: ValidEdge(order[k], w, h)) &&
    (forall e {:trigger ValidEdge(e, w, h)} | ValidEdge(e, w, h) :: e in order)
  }

  /** Every shuffle of the edge list (`_.shuffle` returns a permutation)
      lists all the edges and only those. */
  lemma {:induction false} ShuffleListsAllEdges(order: seq<Edge>, w: nat, h: nat)
    requires multiset(order) == multiset(EdgeList(w, h))
    ensures ListsAllEdges(order, w, h)
  {
    forall k | 0 <= k < |order|
      ensures ValidEdge(order[k], w, h)
    {
      assert order[k] in multiset(EdgeList(w, h));
      EdgeListContents(w, h, order[k]);
    }
    forall e {:trigger ValidEdge(e, w, h)} | ValidEdge(e, w, h)
      ensures e in order
    {
      EdgeListContents(w, h, e);
      assert e in multiset(order);
    }
  }

  // ---------------------------------------------------------------------------
  // generateMaze

  /** One iteration of the `while` loop of `generateMaze`: the wall of `e` is
      cleared, and the two ends joined, exactly when they were not yet
      connected. */
  method ProcessEdge(sets: UnionForest, grid: Grid, e: Edge, width: nat, height: nat,
                     ghost route: seq<seq<Cell>>, ghost done: seq<Edge>)
    returns (grid': Grid, ghost route': seq<seq<Cell>>)
    requires ValidEdge(e, width, height)
    requires sets.Valid() && sets.parent.Length == Area(width, height)
    requires Kruskal(grid, width, height, sets.Classes(), route)
    requires AllJoined(sets.Classes(), width, height, done)
    modifies sets, sets.parent
    ensures sets.Valid() && sets.parent == old(sets.parent)
    ensures Kruskal(grid', width, height, sets.Classes(), route')
    ensures AllJoined(sets.Classes(), width, height, [e] + done)
    ensures if Joined(old(sets.Classes()), width, height, e) then
        grid' == grid && sets.Classes() == old(sets.Classes())
      else
        grid' == OpenWall(grid, e) &&
        sets.Classes() == Merge(old(sets.Classes()), old(sets.Classes())[Node(OtherEnd(e), width, height)],
                                old(sets.Classes())[Node(Cell(e.x, e.y), width, height)])
  {
    MoveCoordinatesIsOtherEnd(e, width, height);
    var (x2, y2) := MoveCoordinates(e.x, e.y, e.direction);
    var set1 := Node(Cell(e.x, e.y), width, height);
    var set2 := Node(Cell(x2, y2), width, height);
    var connected := sets.IsConnected(set1, set2);
    grid', route' := grid, route;
    if !connected {
      sets.Connect(set1, set2);
      route' := KruskalUnion(grid, width, height, old(sets.Classes()), route, e);
      AllJoinedMerge(old(sets.Classes()), width, height, done, set1, set2);
      if e.direction == S {
        grid' := grid[x2 := grid[x2][y2 := grid[x2][y2].(fillRight := false)]];
      } else {
        grid' := grid[x2 := grid[x2][y2 := grid[x2][y2].(fillBottom := false)]];
      }
    }
    AllJoinedCons(sets.Classes(), width, height, e, done);
  }

  /** The `while` loop of `generateMaze`: pops the edges of `order` from the
      back and clears each wall whose two cells are not yet connected. From
      any state satisfying the invariant it reaches one where every edge of
      `order` joins two cells of one class. */
  method RemoveWalls(sets: UnionForest, grid: Grid, order: seq<Edge>, width: nat, height: nat,
                     ghost route: seq<seq<Cell>>)
    returns (grid': Grid, ghost route': seq<seq<Cell>>)
    requires forall k | 0 <= k < |order| :: ValidEdge(order[k], width, height)
    requires sets.Valid() && sets.parent.Length == Area(width, height)
    requires Kruskal(grid, width, height, sets.Classes(), route)
    modifies sets, sets.parent
    ensures sets.Valid() && sets.parent == old(sets.parent)
    ensures Kruskal(grid', width, height, sets.Classes(), route')
    ensures AllJoined(sets.Classes(), width, height, order)
  {
    var n: nat := |order|;
    grid', route' := grid, route;
    while n > 0
      invariant n <= |order|
      invariant sets.Valid() && sets.parent == old(sets.parent)
      invariant Kruskal(grid', width, height, sets.Classes(), route')
      invariant AllJoined(sets.Classes(), width, height, order[n..])
    {
      n := n - 1;
      var e := order[n];
      grid', route' := ProcessEdge(sets, grid', e, width, height, route', order[n + 1..]);
      assert [e] + order[n + 1..] == order[n..];
    }
    assert order[0..] == order;
  }

  /** `generateMaze(width, height)`, with `_.shuffle(edges)` supplied by the
      caller as `order`, any permutation of the edge list. The result is a
      perfect maze: every pair of cells is joined by open passages, exactly
      `width * height - 1` walls are open (a spanning tree), and the walls on
      the bottom row and the right column stay standing. */
  method GenerateMaze(width: nat, height: nat, order: seq<Edge>) returns (grid: Grid)
    requires ListsAllEdges(order, width, height)
    ensures Perfect(grid, width, height)
  {
    grid := InitialGrid(width, height);
    AreaIsProduct(width, height);
    var sets := new UnionForest(width * height);
    ghost var route := KruskalInit(width, height, sets.Classes());
    grid, route := RemoveWalls(sets, grid, order, width, height, route);
    KruskalDone(grid, width, height, sets.Classes(), route, order);
  }
}
