// The Wa-Tor rules as functions on grid values.
//
// A grid is a square n x n sequence of rows, indexed [y][x] as the program
// indexes its global array. Every write of the program is one `Put`; the step
// functions below compose those writes in the order the program performs them,
// so that the methods of the World class (module Wator) can be proved equal to
// them and the lemmas of module WatorProperties can speak about them.

module WatorRules {

  datatype Option<T> = None | Some(value: T)

  datatype TileType = Ocean | Fish | Shark

  // One tile. The display colour of the program is left out: it is a function
  // of `tiletype` only.
  datatype Tile = Tile(tiletype: TileType, energy: int, turn: int, x: int, y: int, hasMoved: bool)

  // The rule constants of the program.
  const FishBreed: int := 1
  const SharkBreed: int := 6
  const EnergyGain: int := 1
  const Starve: int := 2

  // The value of every tile of the zero-initialised global array before the
  // first write: tiletype 0 (Ocean), the member defaults, coordinates 0.
  const DefaultTile: Tile := Tile(Ocean, 0, 0, 0, 0, false)

  type Grid = seq<seq<Tile>>

  predicate IsGrid(g: Grid, n: nat)
  {
    |g| == n && forall y :: 0 <= y < n ==> |g[y]| == n
  }

  // (x, y) is a position of a non-empty n x n grid.
  predicate Site(g: Grid, n: nat, x: nat, y: nat)
  {
    0 < n && IsGrid(g, n) && x < n && y < n
  }

  // Every tile carries its own position.
  predicate Stamped(g: Grid)
  {
    forall y, x :: 0 <= y < |g| && 0 <= x < |g[y]| ==> g[y][x].x == x && g[y][x].y == y
  }

  // C++ `%` on int: the quotient truncates toward zero, so a negative
  // dividend gives a remainder that is zero or negative.
  function CRem(a: int, b: int): (r: int)
    requires 0 < b
    ensures -b < r < b
    ensures 0 <= a ==> 0 <= r
    ensures a <= 0 ==> r <= 0
    ensures a == b * (if 0 <= a then a / b else -((-a) / b)) + r
  {
    if 0 <= a then a % b else -((-a) % b)
  }

  // ---------------------------------------------------------------- writers

  // tiles[y][x] = t
  function Put(g: Grid, x: nat, y: nat, t: Tile): (r: Grid)
    requires y < |g| && x < |g[y]|
    ensures |r| == |g| && |r[y]| == |g[y]| && r[y][x] == t
  {
    g[y := g[y][x := t]]
  }

  // The tiles that setOcean, setFish and setShark build before storing them.
  function OceanAt(x: int, y: int): Tile { Tile(Ocean, 0, 0, x, y, false) }
  function FishAt(x: int, y: int): Tile { Tile(Fish, 0, 0, x, y, false) }
  function SharkAt(x: int, y: int): Tile { Tile(Shark, Starve, 0, x, y, false) }

  // setTile overwrites the coordinates of the tile it stores.
  function Stamp(t: Tile, x: int, y: int): Tile { t.(x := x, y := y) }

  // ------------------------------------------------------------- neighbours

  // The offset tables of setNeighbours: N, E, S, W.
  function OffsetX(i: nat): int
    requires i < 4
  {
    [0, 1, 0, -1][i]
  }

  function OffsetY(i: nat): int
    requires i < 4
  {
    [-1, 0, 1, 0][i]
  }

  // A coordinate at most one step past an edge of the torus, brought back in
  // range.
  function Wrapped(a: int, n: nat): int
  {
    if a < 0 then n - 1 else if a >= n then 0 else a
  }

  // Coordinates of neighbour i of (x, y), wrapped around the torus.
  function NeighbourCoord(n: nat, x: nat, y: nat, i: nat): (c: (nat, nat))
    requires 0 < n && x < n && y < n && i < 4
    ensures c.0 < n && c.1 < n
  {
    (Wrapped(x + OffsetX(i), n), Wrapped(y + OffsetY(i), n))
  }

  // The program's `(x + offsetsX[i] + xdim) % xdim` is the wrapped coordinate.
  lemma WrapByRemainder(a: int, n: nat)
    requires 0 < n && -1 <= a <= n
    ensures CRem(a + n, n) == Wrapped(a, n)
  {
    if a + n >= n {
      assert a + n == n + a;
    }
  }

  function NeighbourTile(g: Grid, n: nat, x: nat, y: nat, i: nat): Tile
    requires Site(g, n, x, y) && i < 4
  {
    var c := NeighbourCoord(n, x, y, i);
    g[c.1][c.0]
  }

  // On a stamped grid the tile found at neighbour i carries the coordinates
  // the program reads back from it.
  lemma NeighbourAt(g: Grid, n: nat, x: nat, y: nat, i: nat)
    requires Site(g, n, x, y) && Stamped(g) && i < 4
    ensures var c := NeighbourCoord(n, x, y, i);
            NeighbourTile(g, n, x, y, i) == g[c.1][c.0] && g[c.1][c.0].x == c.0 && g[c.1][c.0].y == c.1
  {
  }

  // The tile types of the four neighbours, in the order setNeighbours lists them.
  function Kinds(g: Grid, n: nat, x: nat, y: nat): (r: seq<TileType>)
    requires Site(g, n, x, y)
    ensures |r| == 4
    ensures forall i :: 0 <= i < 4 ==> r[i] == NeighbourTile(g, n, x, y, i).tiletype
  {
    [NeighbourTile(g, n, x, y, 0).tiletype, NeighbourTile(g, n, x, y, 1).tiletype,
     NeighbourTile(g, n, x, y, 2).tiletype, NeighbourTile(g, n, x, y, 3).tiletype]
  }

  // ------------------------------------------------------------------- scan

  // The slot looked at on attempt i of a scan that starts at d. The program
  // advances `location` only while the mover's copied `hasMoved` is false; a
  // mover that was already flagged looks at slot d on every attempt.
  function Probe(d: nat, i: nat, rotate: bool): (s: nat)
    requires d < 4 && i <= 4
    ensures s < 4
  {
    if !rotate then d else if d + i < 4 then d + i else d + i - 4
  }

  // The step `location = (location + 1) % 4` taken after a miss.
  lemma ProbeNext(d: nat, i: nat, rotate: bool)
    requires d < 4 && i < 4
    ensures Probe(d, i + 1, rotate) == if rotate then (Probe(d, i, rotate) + 1) % 4 else Probe(d, i, rotate)
  {
  }

  // Attempts 0, ..., i-1 of a scan from d all found something other than `want`.
  predicate MissedBefore(kinds: seq<TileType>, want: TileType, d: nat, rotate: bool, i: nat)
    requires |kinds| == 4 && d < 4 && i <= 4
  {
    && (0 < i ==> kinds[Probe(d, 0, rotate)] != want)
    && (1 < i ==> kinds[Probe(d, 1, rotate)] != want)
    && (2 < i ==> kinds[Probe(d, 2, rotate)] != want)
    && (3 < i ==> kinds[Probe(d, 3, rotate)] != want)
  }

  // The state of a scan loop before attempt i: the slot `location` it will
  // try next, and the misses so far.
  ghost predicate Scanning(kinds: seq<TileType>, want: TileType, d: nat, rotate: bool, i: nat, location: nat)
  {
    |kinds| == 4 && d < 4 && i <= 4 && location == Probe(d, i, rotate) && MissedBefore(kinds, want, d, rotate, i)
  }

  // The four-attempt loop of moveFish and moveShark: the slot of the first
  // neighbour of kind `want`, in attempt order from d, or None.
  function Scan(kinds: seq<TileType>, want: TileType, d: nat, rotate: bool): (r: Option<nat>)
    requires |kinds| == 4 && d < 4
    ensures r.Some? ==> r.value < 4 && kinds[r.value] == want
    ensures r.None? <==> MissedBefore(kinds, want, d, rotate, 4)
  {
    if kinds[Probe(d, 0, rotate)] == want then Some(Probe(d, 0, rotate))
    else if kinds[Probe(d, 1, rotate)] == want then Some(Probe(d, 1, rotate))
    else if kinds[Probe(d, 2, rotate)] == want then Some(Probe(d, 2, rotate))
    else if kinds[Probe(d, 3, rotate)] == want then Some(Probe(d, 3, rotate))
    else None
  }

  // A scan whose attempts before i all missed and whose attempt i hits
  // returns the slot of attempt i.
  lemma ScanHit(kinds: seq<TileType>, want: TileType, d: nat, rotate: bool, i: nat)
    requires |kinds| == 4 && d < 4 && i < 4
    requires MissedBefore(kinds, want, d, rotate, i)
    requires kinds[Probe(d, i, rotate)] == want
    ensures Scan(kinds, want, d, rotate) == Some(Probe(d, i, rotate))
  {
  }

  // One more miss extends the run of misses.
  lemma MissNext(kinds: seq<TileType>, want: TileType, d: nat, rotate: bool, i: nat)
    requires |kinds| == 4 && d < 4 && i < 4
    requires MissedBefore(kinds, want, d, rotate, i)
    requires kinds[Probe(d, i, rotate)] != want
    ensures MissedBefore(kinds, want, d, rotate, i + 1)
  {
  }

  // ------------------------------------------------------------------- fish

  // The Ocean slot a fish at (x, y) moves to, if any.
  function FishTarget(g: Grid, n: nat, x: nat, y: nat, d: nat): Option<nat>
    requires Site(g, n, x, y) && d < 4
  {
    Scan(Kinds(g, n, x, y), Ocean, d, !g[y][x].hasMoved)
  }

  // The writes of moveFish once it has found Ocean at neighbour slot s: the
  // origin becomes Ocean, or a newborn fish when the mover's turn reaches
  // FishBreed (the mover's turn then restarts at 0), and the mover, one turn
  // older and flagged, is stored at the neighbour.
  function FishMovesTo(g: Grid, n: nat, x: nat, y: nat, s: nat): (r: Grid)
    requires Site(g, n, x, y) && s < 4
    ensures IsGrid(r, n)
  {
    var c := NeighbourCoord(n, x, y, s);
    var fish := g[y][x].(turn := g[y][x].turn + 1, hasMoved := true);
    var g1 := Put(g, x, y, OceanAt(x, y));
    if fish.turn == FishBreed then
      Put(Put(g1, x, y, FishAt(x, y)), c.0, c.1, Stamp(fish.(turn := 0), c.0, c.1))
    else
      Put(g1, c.0, c.1, Stamp(fish, c.0, c.1))
  }

  // moveFish(x, y) with the random start slot d.
  function FishStep(g: Grid, n: nat, x: nat, y: nat, d: nat): (r: Grid)
    requires Site(g, n, x, y) && d < 4
    ensures IsGrid(r, n)
  {
    match FishTarget(g, n, x, y, d)
    case None => g
    case Some(s) => FishMovesTo(g, n, x, y, s)
  }

  // ------------------------------------------------------------------ shark

  // The Fish slot of the first loop of moveShark.
  function PreySlot(g: Grid, n: nat, x: nat, y: nat, d: nat): Option<nat>
    requires Site(g, n, x, y) && d < 4
  {
    Scan(Kinds(g, n, x, y), Fish, d, !g[y][x].hasMoved)
  }

  // The slot the shark moves to: the prey slot, else the Ocean slot of the
  // second loop, which runs only when no fish was found and the copied
  // `hasMoved` is false.
  function SharkTarget(g: Grid, n: nat, x: nat, y: nat, d: nat): Option<nat>
    requires Site(g, n, x, y) && d < 4
  {
    var prey := PreySlot(g, n, x, y, d);
    if prey.Some? then prey
    else if !g[y][x].hasMoved then Scan(Kinds(g, n, x, y), Ocean, d, true)
    else None
  }

  // The slot behind (x2, y2) when the last write happens: the target, or the
  // slot of the last attempt when nothing was found.
  function SharkSlot(g: Grid, n: nat, x: nat, y: nat, d: nat): (s: nat)
    requires Site(g, n, x, y) && d < 4
    ensures s < 4
  {
    match SharkTarget(g, n, x, y, d)
    case Some(s) => s
    case None => Probe(d, 3, !g[y][x].hasMoved)
  }

  function SharkDest(g: Grid, n: nat, x: nat, y: nat, d: nat): (c: (nat, nat))
    requires Site(g, n, x, y) && d < 4
    ensures c.0 < n && c.1 < n
  {
    NeighbourCoord(n, x, y, SharkSlot(g, n, x, y, d))
  }

  // The shark's local copy once both loops are done: one energy spent and one
  // turn added on every call, the gain added when it eats, flagged once it
  // has found somewhere to go.
  function SharkMover(g: Grid, n: nat, x: nat, y: nat, d: nat): Tile
    requires Site(g, n, x, y) && d < 4
  {
    var shark := g[y][x];
    var gain := if PreySlot(g, n, x, y, d).Some? then EnergyGain else 0;
    shark.(energy := shark.energy - 1 + gain,
           turn := shark.turn + 1,
           hasMoved := shark.hasMoved || SharkTarget(g, n, x, y, d).Some?)
  }

  // The writes after the loops when the shark's flag is set: a fresh shark at
  // the origin when the breeding age is reached, then the mover, or Ocean
  // when it has starved, at the destination. `g1` is the grid after the loops.
  function SharkLands(g1: Grid, n: nat, x: nat, y: nat, mover: Tile, dest: (nat, nat)): (r: Grid)
    requires Site(g1, n, x, y) && dest.0 < n && dest.1 < n
    ensures IsGrid(r, n)
  {
    var breeds := mover.turn >= SharkBreed;
    var g2 := if breeds then Put(g1, x, y, SharkAt(x, y)) else g1;
    var m := if breeds then mover.(turn := 0) else mover;
    if m.energy < 0 then Put(g2, dest.0, dest.1, OceanAt(dest.0, dest.1))
    else Put(g2, dest.0, dest.1, Stamp(m, dest.0, dest.1))
  }

  // The grid after the loops: the origin is cleared only when a target was found.
  function SharkLeaves(g: Grid, n: nat, x: nat, y: nat, d: nat): (r: Grid)
    requires Site(g, n, x, y) && d < 4
    ensures IsGrid(r, n)
  {
    if SharkTarget(g, n, x, y, d).Some? then Put(g, x, y, OceanAt(x, y)) else g
  }

  // The writes after the loops of moveShark, as the program is written, on
  // the grid g1 the loops left, with the shark's copy `mover` and the last
  // scanned neighbour `dest`. A shark that found neither a fish nor Ocean (and
  // so is still unflagged) and has not starved is stored at `dest`, which then
  // is a shark and is overwritten, while the origin keeps the old shark
  // untouched. SharkStepFixed is the evidently intended in-place update.
  function SharkSettles(g1: Grid, n: nat, x: nat, y: nat, mover: Tile, dest: (nat, nat)): (r: Grid)
    requires Site(g1, n, x, y) && dest.0 < n && dest.1 < n
    ensures IsGrid(r, n)
  {
    if mover.hasMoved then SharkLands(g1, n, x, y, mover, dest)
    else if mover.energy < 0 then Put(g1, x, y, OceanAt(x, y))
    else Put(g1, dest.0, dest.1, Stamp(mover, dest.0, dest.1))
  }

  // moveShark(x, y) with the random start slot d, as the program is written.
  function SharkStep(g: Grid, n: nat, x: nat, y: nat, d: nat): (r: Grid)
    requires Site(g, n, x, y) && d < 4
    ensures IsGrid(r, n)
  {
    SharkSettles(SharkLeaves(g, n, x, y, d), n, x, y, SharkMover(g, n, x, y, d), SharkDest(g, n, x, y, d))
  }

  // The writes after the loops with the stuck case corrected: a shark that
  // could not move is stored back at its own position.
  function SharkSettlesFixed(g1: Grid, n: nat, x: nat, y: nat, mover: Tile, dest: (nat, nat)): (r: Grid)
    requires Site(g1, n, x, y) && dest.0 < n && dest.1 < n
    ensures IsGrid(r, n)
  {
    if mover.hasMoved then SharkLands(g1, n, x, y, mover, dest)
    else if mover.energy < 0 then Put(g1, x, y, OceanAt(x, y))
    else Put(g1, x, y, Stamp(mover, x, y))
  }

  // The three ways moveShark's loops can end, each as the grid `g1` the
  // loops leave, the shark's copy `mover` and the last scanned neighbour
  // `dest`; `copy` is the tile at (x, y) with one energy spent and one turn
  // added. In each case these are SharkLeaves, SharkMover and SharkDest, so
  // moveShark's result is what the final writes make of them.

  // The first loop found a fish.
  lemma SharkEats(g: Grid, n: nat, x: nat, y: nat, d: nat, copy: Tile, g1: Grid, mover: Tile, dest: (nat, nat))
    requires Site(g, n, x, y) && d < 4 && PreySlot(g, n, x, y, d).Some?
    requires copy == g[y][x].(energy := g[y][x].energy - 1, turn := g[y][x].turn + 1)
    requires g1 == Put(g, x, y, OceanAt(x, y))
    requires mover == copy.(hasMoved := true, energy := copy.energy + EnergyGain)
    requires dest == NeighbourCoord(n, x, y, PreySlot(g, n, x, y, d).value)
    ensures SharkLeaves(g, n, x, y, d) == g1 && SharkMover(g, n, x, y, d) == mover
    ensures SharkDest(g, n, x, y, d) == dest
  {
  }

  // The second loop found Ocean.
  lemma SharkSwims(g: Grid, n: nat, x: nat, y: nat, d: nat, copy: Tile, g1: Grid, mover: Tile, dest: (nat, nat))
    requires Site(g, n, x, y) && d < 4 && !g[y][x].hasMoved && PreySlot(g, n, x, y, d).None?
    requires Scan(Kinds(g, n, x, y), Ocean, d, true).Some?
    requires copy == g[y][x].(energy := g[y][x].energy - 1, turn := g[y][x].turn + 1)
    requires g1 == Put(g, x, y, OceanAt(x, y))
    requires mover == copy.(hasMoved := true)
    requires dest == NeighbourCoord(n, x, y, Scan(Kinds(g, n, x, y), Ocean, d, true).value)
    ensures SharkLeaves(g, n, x, y, d) == g1 && SharkMover(g, n, x, y, d) == mover
    ensures SharkDest(g, n, x, y, d) == dest
  {
  }

  // Neither loop found anything, or the second did not run.
  lemma SharkStays(g: Grid, n: nat, x: nat, y: nat, d: nat, copy: Tile, dest: (nat, nat))
    requires Site(g, n, x, y) && d < 4 && PreySlot(g, n, x, y, d).None?
    requires !g[y][x].hasMoved ==> Scan(Kinds(g, n, x, y), Ocean, d, true).None?
    requires copy == g[y][x].(energy := g[y][x].energy - 1, turn := g[y][x].turn + 1)
    requires dest == NeighbourCoord(n, x, y, Probe(d, 3, !g[y][x].hasMoved))
    ensures SharkLeaves(g, n, x, y, d) == g && SharkMover(g, n, x, y, d) == copy
    ensures SharkDest(g, n, x, y, d) == dest
  {
  }

  // moveShark with the stuck case corrected.
  function SharkStepFixed(g: Grid, n: nat, x: nat, y: nat, d: nat): (r: Grid)
    requires Site(g, n, x, y) && d < 4
    ensures IsGrid(r, n)
  {
    SharkSettlesFixed(SharkLeaves(g, n, x, y, d), n, x, y, SharkMover(g, n, x, y, d), SharkDest(g, n, x, y, d))
  }

  // ------------------------------------------------------------------- tick

  // One iteration of the inner loop of moveCreatures. `draw(k)` is the k-th
  // number of the generator; a mover call consumes one.
  function Visit(g: Grid, n: nat, draw: nat -> nat, k: nat, x: nat, y: nat): (r: (Grid, nat))
    requires Site(g, n, x, y)
    ensures IsGrid(r.0, n)
  {
    var t := g[y][x];
    if t.tiletype == Fish && !t.hasMoved then (FishStep(g, n, x, y, draw(k) % 4), k + 1)
    else if t.tiletype == Shark && !t.hasMoved then (SharkStep(g, n, x, y, draw(k) % 4), k + 1)
    else (g, k)
  }

  // Visits of positions x, x+1, ..., n-1 of row y.
  function Row(g: Grid, n: nat, draw: nat -> nat, k: nat, y: nat, x: nat): (r: (Grid, nat))
    requires 0 < n && IsGrid(g, n) && y < n && x <= n
    ensures IsGrid(r.0, n)
    ensures k <= r.1 <= k + (n - x)
    decreases n - x
  {
    if x == n then (g, k)
    else
      var v := Visit(g, n, draw, k, x, y);
      Row(v.0, n, draw, v.1, y, x + 1)
  }

  // Rows y, y+1, ..., n-1, each from left to right.
  function Rows(g: Grid, n: nat, draw: nat -> nat, k: nat, y: nat): (r: (Grid, nat))
    requires 0 < n && IsGrid(g, n) && y <= n
    ensures IsGrid(r.0, n)
    ensures k <= r.1
    decreases n - y
  {
    if y == n then (g, k)
    else
      var v := Row(g, n, draw, k, y, 0);
      Rows(v.0, n, draw, v.1, y + 1)
  }

  // What is left of a row that has reached position x: finishing the row
  // turns (g, k) into `result`.
  ghost predicate RowLeft(g: Grid, n: nat, draw: nat -> nat, k: nat, y: nat, x: nat, result: (Grid, nat))
  {
    0 < n && IsGrid(g, n) && y < n && x <= n && Row(g, n, draw, k, y, x) == result
  }

  // What is left of a tick that has reached row y.
  ghost predicate TickRowsLeft(g: Grid, n: nat, draw: nat -> nat, k: nat, y: nat, result: (Grid, nat))
  {
    0 < n && IsGrid(g, n) && y <= n && Rows(g, n, draw, k, y) == result
  }

  // One more visit of row y.
  lemma RowNext(g: Grid, n: nat, draw: nat -> nat, k: nat, y: nat, x: nat)
    requires 0 < n && IsGrid(g, n) && y < n && x < n
    ensures var v := Visit(g, n, draw, k, x, y);
      Row(g, n, draw, k, y, x) == Row(v.0, n, draw, v.1, y, x + 1)
  {
  }

  // One more row.
  lemma RowsNext(g: Grid, n: nat, draw: nat -> nat, k: nat, y: nat)
    requires 0 < n && IsGrid(g, n) && y < n
    ensures var v := Row(g, n, draw, k, y, 0);
      Rows(g, n, draw, k, y) == Rows(v.0, n, draw, v.1, y + 1)
  {
  }

  // moveCreatures run on one thread: the grid after the tick and the position
  // of the next unused draw.
  function Tick(g: Grid, n: nat, draw: nat -> nat, k: nat): (r: (Grid, nat))
    requires 0 < n && IsGrid(g, n)
    ensures IsGrid(r.0, n)
  {
    Rows(g, n, draw, k, 0)
  }

  // The reset pass after each tick.
  function ClearFlags(g: Grid): (r: Grid)
    ensures |r| == |g|
    ensures forall y :: 0 <= y < |g| ==> |r[y]| == |g[y]|
  {
    seq(|g|, y requires 0 <= y < |g| =>
      seq(|g[y]|, x requires 0 <= x < |g[y]| => g[y][x].(hasMoved := false)))
  }

  // ------------------------------------------------------------ initial layout

  // The tile initializeWorld leaves at (x, y): Ocean, overwritten by a shark
  // where (y - x) % 18 == 0 and otherwise by a fish where (y - x) % 10 == 0.
  function InitialTile(x: nat, y: nat): (t: Tile)
    ensures t.x == x && t.y == y && t.turn == 0 && !t.hasMoved
  {
    var id := y - x;
    if CRem(id, 18) == 0 then SharkAt(x, y)
    else if CRem(id, 10) == 0 then FishAt(x, y)
    else OceanAt(x, y)
  }
}
