/**
 * The Technology Village "light up" puzzle: a square grid of wire tiles,
 * 3×3 on level 1, 4×4 on level 2 and 5×5 from level 3 on.  Clicking a tile
 * turns it a quarter turn clockwise; the level is won when every tile points
 * at 180 degrees.  Up to three levels are offered.
 */
module Circuit {
  import opened Wrappers

  const TileSpacing: int := 80
  const WinRotation: int := 180
  const LastLevel: int := 3

  datatype Circuit = Circuit(
    id: int,
    connections: int,
    rotation: int,
    x: int,
    y: int,
    isConnected: bool)

  /** The two random draws, each in [0, 1), that decide one fresh tile. */
  datatype Roll = Roll(rotationDraw: real, connectionsDraw: real)

  predicate ValidRoll(r: Roll) {
    0.0 <= r.rotationDraw < 1.0 && 0.0 <= r.connectionsDraw < 1.0
  }

  datatype Game = Game(
    level: int,
    circuits: seq<Circuit>,
    selectedCircuit: Option<int>,
    gameWon: bool)

  const Initial: Game := Game(1, [], None, false)

  predicate ValidRotation(r: int) {
    r == 0 || r == 90 || r == 180 || r == 270
  }

  /** Tiles per row (and per column) on a level. */
  function GridSize(level: int): (n: int)
    ensures level == 1 ==> n == 3
    ensures level == 2 ==> n == 4
    ensures level != 1 && level != 2 ==> n == 5
  {
    if level == 1 then 3 else if level == 2 then 4 else 5
  }

  // ---------------------------------------------------------------------------
  // Building a level

  /** Tile `i` of an `n`-wide grid, laid out row by row. */
  function NewTile(i: nat, n: int, roll: Roll): (c: Circuit)
    requires n > 0 && ValidRoll(roll)
    ensures c.id == i && !c.isConnected
    ensures c.rotation == 0 || c.rotation == 90
    ensures 1 <= c.connections <= 4
  {
    Circuit(
      i,
      (roll.connectionsDraw * 4.0).Floor + 1,
      if roll.rotationDraw > 0.5 then 90 else 0,
      (i % n) * TileSpacing,
      (i / n) * TileSpacing,
      false)
  }

  /** The grid a level starts with, given one pair of draws per tile. */
  function Grid(level: int, rolls: seq<Roll>): seq<Circuit>
    requires |rolls| == GridSize(level) * GridSize(level)
    requires forall k :: 0 <= k < |rolls| ==> ValidRoll(rolls[k])
  {
    seq(|rolls|, i requires 0 <= i < |rolls| => NewTile(i, GridSize(level), rolls[i]))
  }

  /** Tiles numbered 0.. in order, tile `i` in column `i mod n` and row `i div n`. */
  predicate LaidOut(tiles: seq<Circuit>, n: int) {
    && n > 0
    && |tiles| == n * n
    && forall i :: 0 <= i < |tiles| ==>
         tiles[i].id == i && tiles[i].x == (i % n) * TileSpacing && tiles[i].y == (i / n) * TileSpacing
  }

  /** Every tile freshly dealt: a rotation of 0 or 90, one to four connections, not lit. */
  predicate Fresh(tiles: seq<Circuit>) {
    forall i :: 0 <= i < |tiles| ==>
      (tiles[i].rotation == 0 || tiles[i].rotation == 90) &&
      1 <= tiles[i].connections <= 4 && !tiles[i].isConnected
  }

  /** Tiles that stay within the ranges play keeps. */
  predicate InRange(tiles: seq<Circuit>) {
    forall i :: 0 <= i < |tiles| ==>
      ValidRotation(tiles[i].rotation) && 1 <= tiles[i].connections <= 4
  }

  lemma GridShape(level: int, rolls: seq<Roll>)
    requires |rolls| == GridSize(level) * GridSize(level)
    requires forall k :: 0 <= k < |rolls| ==> ValidRoll(rolls[k])
    ensures LaidOut(Grid(level, rolls), GridSize(level))
    ensures Fresh(Grid(level, rolls))
  {
  }

  /** A laid-out grid puts exactly one tile on every cell of the n×n board. */
  lemma LaidOutCoversBoard(tiles: seq<Circuit>, n: int, col: int, row: int)
    requires LaidOut(tiles, n)
    requires 0 <= col < n && 0 <= row < n
    ensures row * n + col < |tiles|
    ensures tiles[row * n + col].x == col * TileSpacing && tiles[row * n + col].y == row * TileSpacing
    ensures forall i :: 0 <= i < |tiles| && tiles[i].x == col * TileSpacing && tiles[i].y == row * TileSpacing ==>
      i == row * n + col
  {
    var k := row * n + col;
    MulMono(row, n - 1, n);
    assert (n - 1) * n + n == n * n;
    DivModOfCell(n, col, row);
    forall i | 0 <= i < |tiles| && tiles[i].x == col * TileSpacing && tiles[i].y == row * TileSpacing
      ensures i == k
    {
      assert i % n == col && i / n == row;
      assert i == (i / n) * n + i % n;
    }
  }

  lemma DivModOfCell(n: int, col: int, row: int)
    requires n > 0 && 0 <= col < n
    ensures (row * n + col) % n == col && (row * n + col) / n == row
  {
    var k := row * n + col;
    var q, r := k / n, k % n;
    assert k == q * n + r && 0 <= r < n;
    var d := q - row;
    assert d * n == q * n - row * n;
    assert d * n == col - r;
    MulAtLeast(d, n);
    MulAtLeast(-d, n);
    assert (-d) * n == -(d * n);
  }

  /** A positive multiple of n is at least n. */
  lemma {:induction false} MulAtLeast(d: int, n: int)
    requires n > 0
    ensures d >= 1 ==> d * n >= n
    decreases if d < 0 then 0 else d
  {
    if d > 1 {
      MulAtLeast(d - 1, n);
      assert d * n == (d - 1) * n + n;
    }
  }

  lemma MulMono(a: int, b: int, n: int)
    requires a <= b && n >= 0
    ensures a * n <= b * n
  {
    assert b * n - a * n == (b - a) * n;
  }

  /**
   * Building a level as the source does, one tile per loop step: the grid is
   * replaced, nothing is selected and the won flag is cleared.
   */
  method InitializeCircuits(g: Game, rolls: seq<Roll>) returns (r: Game)
    requires |rolls| == GridSize(g.level) * GridSize(g.level)
    requires forall k :: 0 <= k < |rolls| ==> ValidRoll(rolls[k])
    ensures r == g.(circuits := Grid(g.level, rolls), selectedCircuit := None, gameWon := false)
    ensures LaidOut(r.circuits, GridSize(g.level)) && Fresh(r.circuits)
  {
    var n := GridSize(g.level);
    var tiles: seq<Circuit> := [];
    var i := 0;
    while i < n * n
      invariant 0 <= i <= n * n
      invariant |tiles| == i
      invariant forall k :: 0 <= k < i ==> tiles[k] == NewTile(k, n, rolls[k])
    {
      tiles := tiles + [NewTile(i, n, rolls[i])];
      i := i + 1;
    }
    r := g.(circuits := tiles, selectedCircuit := None, gameWon := false);
    GridShape(g.level, rolls);
  }

  // ---------------------------------------------------------------------------
  // Rotating a tile

  /** JavaScript's `%`, whose remainder takes the sign of the dividend. */
  function JsRem(a: int, m: int): (r: int)
    requires m > 0
    ensures a >= 0 ==> r == a % m
    ensures a < 0 ==> -m < r <= 0
    ensures (a - r) % m == 0
  {
    RemovingRemainderLeavesMultiple(if a >= 0 then a else -a, m);
    if a >= 0 then a % m else -((-a) % m)
  }

  /** Taking the remainder off x, or off -x and negating, leaves a multiple of m. */
  lemma RemovingRemainderLeavesMultiple(x: int, m: int)
    requires m > 0
    ensures (x - x % m) % m == 0
    ensures (-(x - x % m)) % m == 0
  {
    var q := x / m;
    assert x - x % m == q * m + 0;
    assert -(x - x % m) == (-q) * m + 0;
    DivModOfCell(m, 0, q);
    DivModOfCell(m, 0, -q);
  }

  /** A quarter turn clockwise. */
  function Turn(rotation: int): (t: int)
    ensures rotation >= 0 ==> 0 <= t < 360
    ensures ValidRotation(rotation) ==> ValidRotation(t) && t != rotation
  {
    JsRem(rotation + 90, 360)
  }

  /** Four quarter turns bring a tile back where it started. */
  lemma FourTurnsIdentity(rotation: int)
    requires ValidRotation(rotation)
    ensures Turn(Turn(Turn(Turn(rotation)))) == rotation
  {
  }

  /** The grid after a click on tile `id`: that tile turns, every other tile is as it was. */
  function RotateTiles(tiles: seq<Circuit>, id: int): (r: seq<Circuit>)
    ensures |r| == |tiles|
  {
    seq(|tiles|, i requires 0 <= i < |tiles| =>
      if tiles[i].id == id then tiles[i].(rotation := Turn(tiles[i].rotation)) else tiles[i])
  }

  /** Only the tile with the clicked id changes, and of it only the rotation. */
  lemma RotateFrame(tiles: seq<Circuit>, id: int)
    ensures |RotateTiles(tiles, id)| == |tiles|
    ensures forall i :: 0 <= i < |tiles| && tiles[i].id != id ==> RotateTiles(tiles, id)[i] == tiles[i]
    ensures forall i :: 0 <= i < |tiles| && tiles[i].id == id ==>
      RotateTiles(tiles, id)[i].rotation == Turn(tiles[i].rotation) &&
      RotateTiles(tiles, id)[i].(rotation := tiles[i].rotation) == tiles[i]
  {
  }

  /** Clicking keeps every tile's rotation among the four right angles and its connections in range. */
  lemma RotateKeepsRange(tiles: seq<Circuit>, id: int)
    requires InRange(tiles)
    ensures InRange(RotateTiles(tiles, id))
  {
  }

  /** Four clicks on the same tile leave the grid as it was. */
  lemma FourClicksIdentity(tiles: seq<Circuit>, id: int)
    requires InRange(tiles)
    ensures RotateTiles(RotateTiles(RotateTiles(RotateTiles(tiles, id), id), id), id) == tiles
  {
    var t1 := RotateTiles(tiles, id);
    var t2 := RotateTiles(t1, id);
    var t3 := RotateTiles(t2, id);
    var t4 := RotateTiles(t3, id);
    forall i | 0 <= i < |tiles|
      ensures t4[i] == tiles[i]
    {
      if tiles[i].id == id {
        FourTurnsIdentity(tiles[i].rotation);
      }
    }
  }

  // ---------------------------------------------------------------------------
  // Winning

  /** The win test: a non-empty grid whose every tile is at 180 degrees. */
  predicate CheckWin(tiles: seq<Circuit>) {
    |tiles| > 0 && forall i :: 0 <= i < |tiles| ==> tiles[i].rotation == WinRotation
  }

  /** The win test looks at rotations only, never at connections, positions or neighbours. */
  lemma WinIgnoresWiring(a: seq<Circuit>, b: seq<Circuit>)
    requires |a| == |b|
    requires forall i :: 0 <= i < |a| ==> a[i].rotation == b[i].rotation
    ensures CheckWin(a) <==> CheckWin(b)
  {
  }

  /**
   * A click: the grid is updated, and the won flag is set when the grid as it
   * was BEFORE this click passes the win test.
   */
  function RotateCircuit(g: Game, id: int): (r: Game)
    ensures r.circuits == RotateTiles(g.circuits, id)
    ensures r.gameWon <==> g.gameWon || CheckWin(g.circuits)
    ensures r.level == g.level && r.selectedCircuit == g.selectedCircuit
  {
    g.(circuits := RotateTiles(g.circuits, id),
       gameWon := g.gameWon || CheckWin(g.circuits))
  }

  /** Ids are unique when each tile's id is its index, as every built grid has. */
  predicate IdsAreIndices(tiles: seq<Circuit>) {
    forall i :: 0 <= i < |tiles| ==> tiles[i].id == i
  }

  /**
   * The win is seen one click late: the click that brings the last tile to
   * 180 does not set the flag, and the next click on that tile sets it while
   * turning the tile away to 270.
   */
  lemma WinSeenOneClickLate(g: Game, k: nat)
    requires !g.gameWon && IdsAreIndices(g.circuits)
    requires k < |g.circuits| && g.circuits[k].rotation == 90
    requires forall i :: 0 <= i < |g.circuits| && i != k ==> g.circuits[i].rotation == WinRotation
    ensures var r1 := RotateCircuit(g, k);
      var r2 := RotateCircuit(r1, k);
      && CheckWin(r1.circuits) && !r1.gameWon
      && r2.gameWon && !CheckWin(r2.circuits) && r2.circuits[k].rotation == 270
  {
    var r1 := RotateCircuit(g, k);
    assert !CheckWin(g.circuits) by {
      assert g.circuits[k].rotation != WinRotation;
    }
    assert r1.circuits[k].rotation == WinRotation;
    var r2 := RotateCircuit(r1, k);
    assert r2.circuits[k].rotation == 270;
  }

  /** "Next level": one level up, the won flag cleared. */
  function NextLevel(g: Game): (r: Game)
    ensures r.level == g.level + 1 && !r.gameWon
    ensures r.circuits == g.circuits && r.selectedCircuit == g.selectedCircuit
  {
    g.(level := g.level + 1, gameWon := false)
  }

  // ---------------------------------------------------------------------------
  // Reachable states

  /** Clicks on the screen and the rebuild that follows the start and every level change. */
  datatype Event =
    | RotateClick(id: int)
    | NextLevelClick
    | Build(rolls: seq<Roll>)

  /** The won dialog replaces the grid, and "next level" appears in it only below the last level. */
  predicate Enabled(g: Game, e: Event) {
    match e
    case RotateClick(_) => !g.gameWon
    case NextLevelClick => g.gameWon && g.level < LastLevel
    case Build(rolls) =>
      |rolls| == GridSize(g.level) * GridSize(g.level) &&
      forall k :: 0 <= k < |rolls| ==> ValidRoll(rolls[k])
  }

  function Step(g: Game, e: Event): Game
    requires Enabled(g, e)
  {
    match e
    case RotateClick(id) => RotateCircuit(g, id)
    case NextLevelClick => NextLevel(g)
    case Build(rolls) => g.(circuits := Grid(g.level, rolls), selectedCircuit := None, gameWon := false)
  }

  predicate ValidRun(g: Game, es: seq<Event>)
    decreases |es|
  {
    es == [] || (Enabled(g, es[0]) && ValidRun(Step(g, es[0]), es[1..]))
  }

  function Run(g: Game, es: seq<Event>): Game
    requires ValidRun(g, es)
    decreases |es|
  {
    if es == [] then g else Run(Step(g, es[0]), es[1..])
  }

  predicate Inv(g: Game) {
    1 <= g.level <= LastLevel && InRange(g.circuits)
  }

  lemma StepPreservesInv(g: Game, e: Event)
    requires Inv(g) && Enabled(g, e)
    ensures Inv(Step(g, e))
  {
    match e
    case RotateClick(id) => RotateKeepsRange(g.circuits, id);
    case NextLevelClick =>
    case Build(rolls) => GridShape(g.level, rolls);
  }

  lemma {:induction false} RunPreservesInv(g: Game, es: seq<Event>)
    requires Inv(g) && ValidRun(g, es)
    ensures Inv(Run(g, es))
    decreases |es|
  {
    if es != [] {
      StepPreservesInv(g, es[0]);
      RunPreservesInv(Step(g, es[0]), es[1..]);
    }
  }

  /**
   * In every reachable state the level is 1, 2 or 3 and every tile's rotation
   * is one of the four right angles with one to four connections.
   */
  lemma ReachableInRange(es: seq<Event>)
    requires ValidRun(Initial, es)
    ensures var g := Run(Initial, es);
      && 1 <= g.level <= LastLevel
      && forall i :: 0 <= i < |g.circuits| ==>
           ValidRotation(g.circuits[i].rotation) && 1 <= g.circuits[i].connections <= 4
  {
    RunPreservesInv(Initial, es);
  }
}
