// Properties of the Wa-Tor rules of module WatorRules: what the writers,
// the neighbour arithmetic, the movers, the tick, the reset pass and the
// initial layout promise.

module WatorProperties {
  import opened WatorRules

  // ------------------------------------------------------------ single writes

  // A write changes the one tile it names and keeps the grid's shape.
  lemma PutAt(g: Grid, n: nat, x: nat, y: nat, t: Tile)
    requires Site(g, n, x, y)
    ensures var r := Put(g, x, y, t);
      && IsGrid(r, n) && r[y][x] == t
      && forall y', x' :: 0 <= y' < n && 0 <= x' < n && (x', y') != (x, y) ==> r[y'][x'] == g[y'][x']
  {
  }

  // A write of a tile that carries its own position keeps every tile
  // carrying its own position.
  lemma PutStamped(g: Grid, n: nat, x: nat, y: nat, t: Tile)
    requires Site(g, n, x, y) && Stamped(g) && t.x == x && t.y == y
    ensures Stamped(Put(g, x, y, t))
  {
  }

  // -------------------------------------------------------------- neighbours

  // Neighbour i is the program's `((x + offsetsX[i] + n) % n,
  // (y + offsetsY[i] + n) % n)`, and it is one step from (x, y) along one
  // axis of the torus.
  lemma NeighbourOffsets(n: nat, x: nat, y: nat, i: nat)
    requires 0 < n && x < n && y < n && i < 4
    ensures NeighbourCoord(n, x, y, i) == (CRem(x + OffsetX(i) + n, n), CRem(y + OffsetY(i) + n, n))
    ensures OffsetX(i) == 0 || OffsetY(i) == 0
    ensures OffsetX(i) + OffsetY(i) == 1 || OffsetX(i) + OffsetY(i) == -1
  {
    WrapByRemainder(x + OffsetX(i), n);
    WrapByRemainder(y + OffsetY(i), n);
  }

  // Stepping to neighbour i and then to the opposite neighbour (i + 2) % 4
  // comes back to (x, y).
  lemma NeighbourBack(n: nat, x: nat, y: nat, i: nat)
    requires 0 < n && x < n && y < n && i < 4
    ensures var c := NeighbourCoord(n, x, y, i);
      NeighbourCoord(n, c.0, c.1, (i + 2) % 4) == (x, y)
  {
  }

  // On a torus at least three wide the four neighbours are four different
  // tiles, none of them (x, y) itself.
  lemma NeighboursDistinct(n: nat, x: nat, y: nat)
    requires 3 <= n && x < n && y < n
    ensures forall i :: 0 <= i < 4 ==> NeighbourCoord(n, x, y, i) != (x, y)
    ensures forall i, j :: 0 <= i < j < 4 ==> NeighbourCoord(n, x, y, i) != NeighbourCoord(n, x, y, j)
  {
  }

  // ------------------------------------------------------------------ counts

  function CountRow(row: seq<Tile>, k: TileType): nat
  {
    if row == [] then 0 else (if row[0].tiletype == k then 1 else 0) + CountRow(row[1..], k)
  }

  // The number of tiles of kind k.
  function Count(g: Grid, k: TileType): nat
  {
    if g == [] then 0 else CountRow(g[0], k) + Count(g[1..], k)
  }

  function Is(t: Tile, k: TileType): nat
  {
    if t.tiletype == k then 1 else 0
  }

  lemma {:induction false} CountRowUpdate(row: seq<Tile>, x: nat, t: Tile, k: TileType)
    requires x < |row|
    ensures CountRow(row[x := t], k) == CountRow(row, k) - Is(row[x], k) + Is(t, k)
    decreases |row|
  {
    if x > 0 {
      assert row[x := t][1..] == row[1..][x - 1 := t];
      CountRowUpdate(row[1..], x - 1, t, k);
    } else {
      assert row[x := t][1..] == row[1..];
    }
  }

  lemma {:induction false} CountRowsUpdate(g: Grid, y: nat, row: seq<Tile>, k: TileType)
    requires y < |g|
    ensures Count(g[y := row], k) == Count(g, k) - CountRow(g[y], k) + CountRow(row, k)
    decreases |g|
  {
    if y > 0 {
      assert g[y := row][1..] == g[1..][y - 1 := row];
      CountRowsUpdate(g[1..], y - 1, row, k);
    } else {
      assert g[y := row][1..] == g[1..];
    }
  }

  // A write replaces one tile in the count of each kind.
  lemma CountPut(g: Grid, x: nat, y: nat, t: Tile, k: TileType)
    requires y < |g| && x < |g[y]|
    ensures Count(Put(g, x, y, t), k) == Count(g, k) - Is(g[y][x], k) + Is(t, k)
  {
    CountRowUpdate(g[y], x, t, k);
    CountRowsUpdate(g, y, g[y][x := t], k);
  }

  lemma {:induction false} RowPartition(row: seq<Tile>)
    ensures CountRow(row, Ocean) + CountRow(row, Fish) + CountRow(row, Shark) == |row|
  {
    if row != [] {
      RowPartition(row[1..]);
    }
  }

  lemma {:induction false} RowsPartition(g: Grid, n: nat)
    requires forall y :: 0 <= y < |g| ==> |g[y]| == n
    ensures Count(g, Ocean) + Count(g, Fish) + Count(g, Shark) == n * |g|
  {
    if g != [] {
      RowPartition(g[0]);
      RowsPartition(g[1..], n);
      assert n * |g| == n + n * |g[1..]|;
    }
  }

  // Every tile of an n x n grid is Ocean, a fish or a shark.
  lemma CountPartition(g: Grid, n: nat)
    requires IsGrid(g, n)
    ensures Count(g, Ocean) + Count(g, Fish) + Count(g, Shark) == n * n
  {
    RowsPartition(g, n);
  }

  // -------------------------------------------------------------------- scan

  // With rotation the scan tries all four slots, so it finds `want`
  // exactly when some neighbour is of that kind.
  lemma ScanRotating(kinds: seq<TileType>, want: TileType, d: nat)
    requires |kinds| == 4 && d < 4
    ensures Scan(kinds, want, d, true).Some? <==> want in kinds
  {
    if want in kinds {
      var j :| 0 <= j < 4 && kinds[j] == want;
      assert j == Probe(d, (j - d + 4) % 4, true);
    }
  }

  // Without rotation the scan tries slot d four times.
  lemma ScanFixed(kinds: seq<TileType>, want: TileType, d: nat)
    requires |kinds| == 4 && d < 4
    ensures Scan(kinds, want, d, false) == if kinds[d] == want then Some(d) else None
  {
  }

  // ------------------------------------------------------------------ moveFish

  // A fish that finds Ocean at neighbour c moves there one turn older and
  // flagged, or, when the turn reaches FishBreed, with its turn restarted
  // and a newborn fish left behind; otherwise the origin becomes Ocean. No
  // other tile changes.
  lemma FishMoves(g: Grid, n: nat, x: nat, y: nat, d: nat)
    requires Site(g, n, x, y) && d < 4 && g[y][x].tiletype == Fish
    requires FishTarget(g, n, x, y, d).Some?
    ensures var c := NeighbourCoord(n, x, y, FishTarget(g, n, x, y, d).value);
      var r := FishStep(g, n, x, y, d);
      var f := g[y][x];
      var breeds := f.turn + 1 == FishBreed;
      && g[c.1][c.0].tiletype == Ocean && c != (x, y)
      && r[c.1][c.0] == f.(turn := if breeds then 0 else f.turn + 1, hasMoved := true, x := c.0, y := c.1)
      && r[y][x] == (if breeds then FishAt(x, y) else OceanAt(x, y))
      && forall y', x' :: 0 <= y' < n && 0 <= x' < n && (x', y') != (x, y) && (x', y') != c ==>
           r[y'][x'] == g[y'][x']
  {
    var s := FishTarget(g, n, x, y, d).value;
    var c := NeighbourCoord(n, x, y, s);
    assert Kinds(g, n, x, y)[s] == g[c.1][c.0].tiletype;
  }

  // A fish that finds no Ocean stays where it is and the grid is unchanged;
  // an unflagged fish finds Ocean exactly when one of its neighbours is Ocean.
  lemma FishBlocked(g: Grid, n: nat, x: nat, y: nat, d: nat)
    requires Site(g, n, x, y) && d < 4
    ensures FishTarget(g, n, x, y, d).None? ==> FishStep(g, n, x, y, d) == g
    ensures !g[y][x].hasMoved ==> (FishTarget(g, n, x, y, d).Some? <==> Ocean in Kinds(g, n, x, y))
  {
    if !g[y][x].hasMoved {
      ScanRotating(Kinds(g, n, x, y), Ocean, d);
    }
  }

  // A write in the counts of all three kinds.
  lemma CountPutAll(g: Grid, x: nat, y: nat, t: Tile)
    requires y < |g| && x < |g[y]|
    ensures var r := Put(g, x, y, t);
      && Count(r, Ocean) == Count(g, Ocean) - Is(g[y][x], Ocean) + Is(t, Ocean)
      && Count(r, Fish) == Count(g, Fish) - Is(g[y][x], Fish) + Is(t, Fish)
      && Count(r, Shark) == Count(g, Shark) - Is(g[y][x], Shark) + Is(t, Shark)
  {
    CountPut(g, x, y, t, Ocean);
    CountPut(g, x, y, t, Fish);
    CountPut(g, x, y, t, Shark);
  }

  // moveFish adds one fish exactly when the fish moves and breeds; it never
  // changes the number of sharks.
  lemma FishCounts(g: Grid, n: nat, x: nat, y: nat, d: nat)
    requires Site(g, n, x, y) && d < 4 && g[y][x].tiletype == Fish
    ensures var r := FishStep(g, n, x, y, d);
      var born := if FishTarget(g, n, x, y, d).Some? && g[y][x].turn + 1 == FishBreed then 1 else 0;
      && Count(r, Fish) == Count(g, Fish) + born
      && Count(r, Ocean) == Count(g, Ocean) - born
      && Count(r, Shark) == Count(g, Shark)
  {
    var target := FishTarget(g, n, x, y, d);
    if target.Some? {
      FishMoves(g, n, x, y, d);
      var c := NeighbourCoord(n, x, y, target.value);
      var f := g[y][x].(turn := g[y][x].turn + 1, hasMoved := true);
      var g1 := Put(g, x, y, OceanAt(x, y));
      PutAt(g, n, x, y, OceanAt(x, y));
      CountPutAll(g, x, y, OceanAt(x, y));
      if f.turn == FishBreed {
        var g2 := Put(g1, x, y, FishAt(x, y));
        PutAt(g1, n, x, y, FishAt(x, y));
        CountPutAll(g1, x, y, FishAt(x, y));
        CountPutAll(g2, c.0, c.1, Stamp(f.(turn := 0), c.0, c.1));
      } else {
        CountPutAll(g1, c.0, c.1, Stamp(f, c.0, c.1));
      }
    }
  }

  // ----------------------------------------------------------------- moveShark

  // An unflagged shark goes for a fish when one is next to it, for Ocean
  // when there is no fish but some Ocean, and finds nothing otherwise.
  lemma SharkPrefersFish(g: Grid, n: nat, x: nat, y: nat, d: nat)
    requires Site(g, n, x, y) && d < 4 && !g[y][x].hasMoved
    ensures var kinds := Kinds(g, n, x, y);
      var t := SharkTarget(g, n, x, y, d);
      && (Fish in kinds ==> t.Some? && kinds[t.value] == Fish)
      && (Fish !in kinds && Ocean in kinds ==> t.Some? && kinds[t.value] == Ocean)
      && (Fish !in kinds && Ocean !in kinds ==> t.None?)
  {
    ScanRotating(Kinds(g, n, x, y), Fish, d);
    ScanRotating(Kinds(g, n, x, y), Ocean, d);
  }

  // A second write to the same tile replaces the first.
  lemma PutPut(g: Grid, x: nat, y: nat, a: Tile, b: Tile)
    requires y < |g| && x < |g[y]|
    ensures Put(Put(g, x, y, a), x, y, b) == Put(g, x, y, b)
  {
    assert g[y][x := a][x := b] == g[y][x := b];
  }

  // What a shark that found somewhere to go carries there, and where.
  lemma SharkMovingMover(g: Grid, n: nat, x: nat, y: nat, d: nat)
    requires Site(g, n, x, y) && d < 4 && g[y][x].tiletype == Shark
    requires SharkTarget(g, n, x, y, d).Some?
    ensures var sh := g[y][x];
      var dest := SharkDest(g, n, x, y, d);
      && dest == NeighbourCoord(n, x, y, SharkTarget(g, n, x, y, d).value)
      && dest != (x, y) && g[dest.1][dest.0].tiletype != Shark
      && SharkMover(g, n, x, y, d)
         == sh.(energy := sh.energy - 1 + (if g[dest.1][dest.0].tiletype == Fish then EnergyGain else 0),
                turn := sh.turn + 1, hasMoved := true)
  {
    var kinds := Kinds(g, n, x, y);
    var s := SharkTarget(g, n, x, y, d).value;
    var c := NeighbourCoord(n, x, y, s);
    assert kinds[s] == g[c.1][c.0].tiletype;
    assert PreySlot(g, n, x, y, d).Some? <==> kinds[s] == Fish;
  }

  // The writes of a shark that found somewhere to go, as two writes: the
  // origin, then the destination.
  lemma SharkMovingWrites(g: Grid, n: nat, x: nat, y: nat, d: nat)
    requires Site(g, n, x, y) && d < 4 && g[y][x].tiletype == Shark
    requires SharkTarget(g, n, x, y, d).Some?
    ensures var mover := SharkMover(g, n, x, y, d);
      var dest := SharkDest(g, n, x, y, d);
      var breeds := mover.turn >= SharkBreed;
      var m := if breeds then mover.(turn := 0) else mover;
      var t := if m.energy < 0 then OceanAt(dest.0, dest.1) else Stamp(m, dest.0, dest.1);
      SharkStep(g, n, x, y, d)
      == Put(Put(g, x, y, if breeds then SharkAt(x, y) else OceanAt(x, y)), dest.0, dest.1, t)
  {
    var mover := SharkMover(g, n, x, y, d);
    var g1 := Put(g, x, y, OceanAt(x, y));
    assert SharkLeaves(g, n, x, y, d) == g1;
    assert mover.hasMoved;
    PutPut(g, x, y, OceanAt(x, y), SharkAt(x, y));
  }

  // A shark that finds a fish or Ocean at neighbour c leaves a newborn
  // shark behind when its turn reaches SharkBreed and Ocean otherwise, and
  // lands at c with one energy spent, the gain added when c held a fish,
  // one turn older (restarted when it breeds) and flagged; when its energy
  // has dropped below zero it dies and c becomes Ocean. No other tile
  // changes.
  lemma SharkMoves(g: Grid, n: nat, x: nat, y: nat, d: nat)
    requires Site(g, n, x, y) && d < 4 && g[y][x].tiletype == Shark
    requires SharkTarget(g, n, x, y, d).Some?
    ensures var s := SharkTarget(g, n, x, y, d).value;
      var c := NeighbourCoord(n, x, y, s);
      var r := SharkStep(g, n, x, y, d);
      var sh := g[y][x];
      var e := sh.energy - 1 + (if g[c.1][c.0].tiletype == Fish then EnergyGain else 0);
      var breeds := sh.turn + 1 >= SharkBreed;
      && g[c.1][c.0].tiletype != Shark && c != (x, y)
      && r[y][x] == (if breeds then SharkAt(x, y) else OceanAt(x, y))
      && r[c.1][c.0] == (if e < 0 then OceanAt(c.0, c.1)
                         else sh.(energy := e, turn := if breeds then 0 else sh.turn + 1,
                                  hasMoved := true, x := c.0, y := c.1))
      && forall y', x' :: 0 <= y' < n && 0 <= x' < n && (x', y') != (x, y) && (x', y') != c ==>
           r[y'][x'] == g[y'][x']
  {
    SharkMovingMover(g, n, x, y, d);
    SharkMovingWrites(g, n, x, y, d);
    var mover := SharkMover(g, n, x, y, d);
    var dest := SharkDest(g, n, x, y, d);
    var breeds := mover.turn >= SharkBreed;
    var o := if breeds then SharkAt(x, y) else OceanAt(x, y);
    var m := if breeds then mover.(turn := 0) else mover;
    var t := if m.energy < 0 then OceanAt(dest.0, dest.1) else Stamp(m, dest.0, dest.1);
    PutAt(g, n, x, y, o);
    PutAt(Put(g, x, y, o), n, dest.0, dest.1, t);
  }

  // The counts after a shark that found somewhere to go: the origin loses
  // the shark and may gain a newborn, the destination gains the mover
  // unless it has starved.
  lemma SharkCountsMoving(g: Grid, n: nat, x: nat, y: nat, d: nat)
    requires Site(g, n, x, y) && d < 4 && g[y][x].tiletype == Shark
    requires SharkTarget(g, n, x, y, d).Some?
    ensures var r := SharkStep(g, n, x, y, d);
      var mover := SharkMover(g, n, x, y, d);
      var dest := SharkDest(g, n, x, y, d);
      var born := if mover.turn >= SharkBreed then 1 else 0;
      && Count(r, Fish) == Count(g, Fish) - Is(g[dest.1][dest.0], Fish)
      && Count(r, Shark) == Count(g, Shark) + born - (if mover.energy < 0 then 1 else 0)
  {
    SharkMovingMover(g, n, x, y, d);
    SharkMovingWrites(g, n, x, y, d);
    var mover := SharkMover(g, n, x, y, d);
    var dest := SharkDest(g, n, x, y, d);
    var breeds := mover.turn >= SharkBreed;
    var o := if breeds then SharkAt(x, y) else OceanAt(x, y);
    var m := if breeds then mover.(turn := 0) else mover;
    var t := if m.energy < 0 then OceanAt(dest.0, dest.1) else Stamp(m, dest.0, dest.1);
    PutAt(g, n, x, y, o);
    CountPutAll(g, x, y, o);
    CountPutAll(Put(g, x, y, o), dest.0, dest.1, t);
  }

  // An unflagged shark on a fish eats it: the fish count drops by one
  // exactly when a fish was next to the shark. A shark is born exactly when
  // the shark moves at breeding age, and one dies exactly when its energy
  // drops below zero.
  lemma SharkCounts(g: Grid, n: nat, x: nat, y: nat, d: nat)
    requires Site(g, n, x, y) && d < 4 && g[y][x].tiletype == Shark && !g[y][x].hasMoved
    ensures var r := SharkStep(g, n, x, y, d);
      var eats := Fish in Kinds(g, n, x, y);
      var moves := SharkTarget(g, n, x, y, d).Some?;
      var e := g[y][x].energy - 1 + (if eats then EnergyGain else 0);
      var born := if moves && g[y][x].turn + 1 >= SharkBreed then 1 else 0;
      && Count(r, Fish) == Count(g, Fish) - (if eats then 1 else 0)
      && Count(r, Shark) == Count(g, Shark) + born - (if e < 0 then 1 else 0)
  {
    SharkPrefersFish(g, n, x, y, d);
    ScanRotating(Kinds(g, n, x, y), Fish, d);
    var kinds := Kinds(g, n, x, y);
    var mover := SharkMover(g, n, x, y, d);
    var dest := SharkDest(g, n, x, y, d);
    var k := SharkSlot(g, n, x, y, d);
    assert kinds[k] == g[dest.1][dest.0].tiletype;
    if SharkTarget(g, n, x, y, d).Some? {
      SharkCountsMoving(g, n, x, y, d);
    } else if mover.energy < 0 {
      CountPutAll(g, x, y, OceanAt(x, y));
    } else {
      CountPutAll(g, dest.0, dest.1, Stamp(mover, dest.0, dest.1));
    }
  }

  // The stuck shark, as the program is written: with neither a fish nor
  // Ocean next to it and energy left, the shark at (x, y) stays untouched,
  // spending no energy and ageing no turn, while its updated copy is written
  // over the shark at neighbour (d + 3) % 4, the last one scanned.
  lemma SharkStuckAsWritten(g: Grid, n: nat, x: nat, y: nat, d: nat)
    requires Site(g, n, x, y) && 2 <= n && d < 4 && g[y][x].tiletype == Shark && !g[y][x].hasMoved
    requires Fish !in Kinds(g, n, x, y) && Ocean !in Kinds(g, n, x, y)
    requires g[y][x].energy >= 1
    ensures var c := NeighbourCoord(n, x, y, (d + 3) % 4);
      var r := SharkStep(g, n, x, y, d);
      var sh := g[y][x];
      && c != (x, y) && g[c.1][c.0].tiletype == Shark
      && r[y][x] == sh
      && r[c.1][c.0] == sh.(energy := sh.energy - 1, turn := sh.turn + 1, x := c.0, y := c.1)
      && forall y', x' :: 0 <= y' < n && 0 <= x' < n && (x', y') != c ==> r[y'][x'] == g[y'][x']
  {
    SharkPrefersFish(g, n, x, y, d);
    var c := NeighbourCoord(n, x, y, (d + 3) % 4);
    assert Kinds(g, n, x, y)[(d + 3) % 4] == g[c.1][c.0].tiletype;
    assert SharkSlot(g, n, x, y, d) == (d + 3) % 4;
    var sh := g[y][x];
    var mover := SharkMover(g, n, x, y, d);
    assert mover == sh.(energy := sh.energy - 1, turn := sh.turn + 1);
    assert SharkStep(g, n, x, y, d) == Put(g, c.0, c.1, Stamp(mover, c.0, c.1));
    PutAt(g, n, c.0, c.1, Stamp(mover, c.0, c.1));
  }

  // The stuck shark, corrected: it stays at (x, y) with one energy spent and
  // one turn added, or dies there when the energy drops below zero, and no
  // other tile changes.
  lemma SharkStuckFixed(g: Grid, n: nat, x: nat, y: nat, d: nat)
    requires Site(g, n, x, y) && d < 4 && g[y][x].tiletype == Shark && !g[y][x].hasMoved
    requires Fish !in Kinds(g, n, x, y) && Ocean !in Kinds(g, n, x, y)
    ensures var r := SharkStepFixed(g, n, x, y, d);
      var sh := g[y][x];
      && r[y][x] == (if sh.energy < 1 then OceanAt(x, y)
                     else sh.(energy := sh.energy - 1, turn := sh.turn + 1, x := x, y := y))
      && forall y', x' :: 0 <= y' < n && 0 <= x' < n && (x', y') != (x, y) ==> r[y'][x'] == g[y'][x']
  {
    SharkPrefersFish(g, n, x, y, d);
    var sh := g[y][x];
    var mover := SharkMover(g, n, x, y, d);
    assert mover == sh.(energy := sh.energy - 1, turn := sh.turn + 1);
    var t := if mover.energy < 0 then OceanAt(x, y) else Stamp(mover, x, y);
    assert SharkStepFixed(g, n, x, y, d) == Put(g, x, y, t);
    PutAt(g, n, x, y, t);
  }

  // Where a shark can move, the corrected and the written steps agree.
  lemma SharkFixAgrees(g: Grid, n: nat, x: nat, y: nat, d: nat)
    requires Site(g, n, x, y) && d < 4
    requires SharkTarget(g, n, x, y, d).Some? || g[y][x].energy < 1
    ensures SharkStepFixed(g, n, x, y, d) == SharkStep(g, n, x, y, d)
  {
  }

  // A second consequence of the stuck branch as written: the copy can land
  // on a shark that has already moved this tick, destroying it, and the scan
  // then processes that tile a second time. On a 3 x 3 grid of flagged
  // sharks with an unflagged shark M at (1, 0), Ocean at (1, 1) and an
  // unflagged shark P at (0, 1), and draws 0 then 2: row 0 moves M south to
  // (1, 1), flagged; P is stuck, its last scanned slot is E = (1, 1), and
  // its unflagged copy replaces M there; the visit of (1, 1) that continues
  // row 1 then moves that copy again with a third draw.
  function Flagged(x: nat, y: nat): Tile { Tile(Shark, Starve, 0, x, y, true) }

  function OverwriteGrid(): Grid
  {
    [[Flagged(0, 0), SharkAt(1, 0), Flagged(2, 0)],
     [SharkAt(0, 1), OceanAt(1, 1), Flagged(2, 1)],
     [Flagged(0, 2), Flagged(1, 2), Flagged(2, 2)]]
  }

  function OverwriteDraw(i: nat): nat { if i == 0 then 0 else 2 }

  // The grid after row 0, and after the visit of (0, 1).
  function MovedGrid(): Grid
  {
    [[Flagged(0, 0), OceanAt(1, 0), Flagged(2, 0)],
     [SharkAt(0, 1), SharkAt(1, 1).(energy := Starve - 1, turn := 1, hasMoved := true), Flagged(2, 1)],
     [Flagged(0, 2), Flagged(1, 2), Flagged(2, 2)]]
  }

  function OverwrittenGrid(): Grid
  {
    [[Flagged(0, 0), OceanAt(1, 0), Flagged(2, 0)],
     [SharkAt(0, 1), SharkAt(1, 1).(energy := Starve - 1, turn := 1), Flagged(2, 1)],
     [Flagged(0, 2), Flagged(1, 2), Flagged(2, 2)]]
  }

  lemma OverwriteMove()
    ensures SharkStep(OverwriteGrid(), 3, 1, 0, 0) == MovedGrid()
  {
    var g := OverwriteGrid();
    assert Kinds(g, 3, 1, 0) == [Shark, Shark, Ocean, Shark];
    assert SharkTarget(g, 3, 1, 0, 0) == Some(2);
    SharkMoves(g, 3, 1, 0, 0);
    var r := SharkStep(g, 3, 1, 0, 0);
    assert r[0] == MovedGrid()[0];
    assert r[1] == MovedGrid()[1];
    assert r[2] == MovedGrid()[2];
  }

  lemma OverwriteStuck()
    ensures SharkStep(MovedGrid(), 3, 0, 1, 2) == OverwrittenGrid()
  {
    var g := MovedGrid();
    assert Kinds(g, 3, 0, 1) == [Shark, Shark, Shark, Shark];
    SharkStuckAsWritten(g, 3, 0, 1, 2);
    var r := SharkStep(g, 3, 0, 1, 2);
    assert r[0] == OverwrittenGrid()[0];
    assert r[1] == OverwrittenGrid()[1];
    assert r[2] == OverwrittenGrid()[2];
  }

  lemma OverwriteRow0()
    ensures Row(OverwriteGrid(), 3, OverwriteDraw, 0, 0, 0) == (MovedGrid(), 1)
  {
    var g, m := OverwriteGrid(), MovedGrid();
    OverwriteMove();
    assert OverwriteDraw(0) % 4 == 0;
    assert Visit(g, 3, OverwriteDraw, 0, 0, 0) == (g, 0);
    assert Visit(g, 3, OverwriteDraw, 0, 1, 0) == (m, 1);
    assert Visit(m, 3, OverwriteDraw, 1, 2, 0) == (m, 1);
    RowNext(g, 3, OverwriteDraw, 0, 0, 0);
    RowNext(g, 3, OverwriteDraw, 0, 0, 1);
    RowNext(m, 3, OverwriteDraw, 1, 0, 2);
  }

  lemma OverwriteVisit()
    ensures Visit(MovedGrid(), 3, OverwriteDraw, 1, 0, 1) == (OverwrittenGrid(), 2)
  {
    OverwriteStuck();
    assert OverwriteDraw(1) % 4 == 2;
    assert MovedGrid()[1][0] == SharkAt(0, 1);
  }

  lemma StuckCopyOverwritesMover()
    ensures var r0 := Row(OverwriteGrid(), 3, OverwriteDraw, 0, 0, 0);
      var p := Visit(r0.0, 3, OverwriteDraw, r0.1, 0, 1);
      && r0 == (MovedGrid(), 1) && r0.0[1][1].tiletype == Shark && r0.0[1][1].hasMoved
      && p == (OverwrittenGrid(), 2) && p.0[1][1].tiletype == Shark && !p.0[1][1].hasMoved
      && p.0[1][0] == OverwriteGrid()[1][0]
      && Row(r0.0, 3, OverwriteDraw, r0.1, 1, 0) == Row(p.0, 3, OverwriteDraw, p.1, 1, 1)
      && Visit(p.0, 3, OverwriteDraw, p.1, 1, 1).1 == 3
  {
    OverwriteRow0();
    OverwriteVisit();
    RowNext(MovedGrid(), 3, OverwriteDraw, 1, 1, 0);
  }

  // The corrected step never overwrites a shark other than the one moving:
  // a moving shark goes to a fish or to Ocean, and a stuck one writes only
  // its own tile. So a shark that has moved keeps its tile, flagged, for the
  // rest of the tick.
  lemma FixedStepSparesSharks(g: Grid, n: nat, x: nat, y: nat, d: nat)
    requires Site(g, n, x, y) && d < 4 && g[y][x].tiletype == Shark && !g[y][x].hasMoved
    ensures var r := SharkStepFixed(g, n, x, y, d);
      forall y', x' :: 0 <= y' < n && 0 <= x' < n && (x', y') != (x, y) && g[y'][x'].tiletype == Shark ==>
        r[y'][x'] == g[y'][x']
  {
    if SharkTarget(g, n, x, y, d).Some? {
      SharkFixAgrees(g, n, x, y, d);
      SharkMoves(g, n, x, y, d);
    } else {
      SharkPrefersFish(g, n, x, y, d);
      SharkStuckFixed(g, n, x, y, d);
    }
  }

  // A fish never overwrites a shark: it moves only onto Ocean.
  lemma FishStepSparesSharks(g: Grid, n: nat, x: nat, y: nat, d: nat)
    requires Site(g, n, x, y) && d < 4 && g[y][x].tiletype == Fish
    ensures var r := FishStep(g, n, x, y, d);
      forall y', x' :: 0 <= y' < n && 0 <= x' < n && (x', y') != (x, y) && g[y'][x'].tiletype == Shark ==>
        r[y'][x'] == g[y'][x']
  {
    if FishTarget(g, n, x, y, d).Some? {
      FishMoves(g, n, x, y, d);
    }
  }

  // ------------------------------------------------------ invariants of a tick

  // The bounds the rules keep on every tile: a shark's energy stays between
  // 0 and Starve, and, since FishBreed is 1, a fish's turn stays 0.
  predicate TileHealthy(t: Tile)
  {
    && (t.tiletype == Shark ==> 0 <= t.energy <= Starve)
    && (t.tiletype == Fish ==> t.turn == 0)
  }

  predicate Healthy(g: Grid)
  {
    forall y, x :: 0 <= y < |g| && 0 <= x < |g[y]| ==> TileHealthy(g[y][x])
  }

  lemma PutHealthy(g: Grid, n: nat, x: nat, y: nat, t: Tile)
    requires Site(g, n, x, y) && Healthy(g) && TileHealthy(t)
    ensures Healthy(Put(g, x, y, t))
  {
  }

  // moveFish keeps every tile carrying its position and keeps the bounds;
  // in particular a fish that moves always breeds.
  lemma FishStepKeeps(g: Grid, n: nat, x: nat, y: nat, d: nat)
    requires Site(g, n, x, y) && d < 4
    ensures Stamped(g) ==> Stamped(FishStep(g, n, x, y, d))
    ensures Healthy(g) ==> Healthy(FishStep(g, n, x, y, d))
    ensures Healthy(g) && g[y][x].tiletype == Fish ==> g[y][x].turn + 1 == FishBreed
  {
    var target := FishTarget(g, n, x, y, d);
    if target.Some? {
      var c := NeighbourCoord(n, x, y, target.value);
      var f := g[y][x].(turn := g[y][x].turn + 1, hasMoved := true);
      var g1 := Put(g, x, y, OceanAt(x, y));
      var g2 := Put(g1, x, y, FishAt(x, y));
      PutAt(g, n, x, y, OceanAt(x, y));
      PutAt(g1, n, x, y, FishAt(x, y));
      if Stamped(g) {
        PutStamped(g, n, x, y, OceanAt(x, y));
        PutStamped(g1, n, x, y, FishAt(x, y));
        PutStamped(g2, n, c.0, c.1, Stamp(f.(turn := 0), c.0, c.1));
        PutStamped(g1, n, c.0, c.1, Stamp(f, c.0, c.1));
      }
      if Healthy(g) {
        PutHealthy(g, n, x, y, OceanAt(x, y));
        PutHealthy(g1, n, x, y, FishAt(x, y));
        if f.turn == FishBreed {
          PutHealthy(g2, n, c.0, c.1, Stamp(f.(turn := 0), c.0, c.1));
        } else {
          assert g[y][x].tiletype != Fish;
          PutHealthy(g1, n, c.0, c.1, Stamp(f, c.0, c.1));
        }
      }
    }
  }

  // The writes after moveShark's loops keep every tile carrying its position.
  lemma SettlesStamped(g1: Grid, n: nat, x: nat, y: nat, mover: Tile, dest: (nat, nat))
    requires Site(g1, n, x, y) && dest.0 < n && dest.1 < n && Stamped(g1)
    ensures Stamped(SharkSettles(g1, n, x, y, mover, dest))
    ensures Stamped(SharkSettlesFixed(g1, n, x, y, mover, dest))
  {
    var breeds := mover.turn >= SharkBreed;
    var g2 := if breeds then Put(g1, x, y, SharkAt(x, y)) else g1;
    var m := if breeds then mover.(turn := 0) else mover;
    PutStamped(g1, n, x, y, SharkAt(x, y));
    PutStamped(g2, n, dest.0, dest.1, OceanAt(dest.0, dest.1));
    PutStamped(g2, n, dest.0, dest.1, Stamp(m, dest.0, dest.1));
    PutStamped(g1, n, x, y, OceanAt(x, y));
    PutStamped(g1, n, dest.0, dest.1, Stamp(mover, dest.0, dest.1));
    PutStamped(g1, n, x, y, Stamp(mover, x, y));
  }

  // The same writes keep the bounds for a shark whose copy has at most
  // Starve energy: a negative energy is never stored, Ocean is written instead.
  lemma SettlesHealthy(g1: Grid, n: nat, x: nat, y: nat, mover: Tile, dest: (nat, nat))
    requires Site(g1, n, x, y) && dest.0 < n && dest.1 < n && Healthy(g1)
    requires mover.tiletype == Shark && mover.energy <= Starve
    ensures Healthy(SharkSettles(g1, n, x, y, mover, dest))
    ensures Healthy(SharkSettlesFixed(g1, n, x, y, mover, dest))
  {
    var breeds := mover.turn >= SharkBreed;
    var g2 := if breeds then Put(g1, x, y, SharkAt(x, y)) else g1;
    var m := if breeds then mover.(turn := 0) else mover;
    PutHealthy(g1, n, x, y, SharkAt(x, y));
    PutHealthy(g2, n, dest.0, dest.1, OceanAt(dest.0, dest.1));
    PutHealthy(g1, n, x, y, OceanAt(x, y));
    if 0 <= mover.energy {
      PutHealthy(g2, n, dest.0, dest.1, Stamp(m, dest.0, dest.1));
      PutHealthy(g1, n, dest.0, dest.1, Stamp(mover, dest.0, dest.1));
      PutHealthy(g1, n, x, y, Stamp(mover, x, y));
    }
  }

  // moveShark, as written and corrected, keeps every tile carrying its position.
  lemma SharkStepStamped(g: Grid, n: nat, x: nat, y: nat, d: nat)
    requires Site(g, n, x, y) && d < 4 && Stamped(g)
    ensures Stamped(SharkStep(g, n, x, y, d)) && Stamped(SharkStepFixed(g, n, x, y, d))
  {
    var g1 := SharkLeaves(g, n, x, y, d);
    PutStamped(g, n, x, y, OceanAt(x, y));
    SettlesStamped(g1, n, x, y, SharkMover(g, n, x, y, d), SharkDest(g, n, x, y, d));
  }

  // moveShark, as written and corrected, started on a shark keeps the bounds:
  // the copy spends one energy before it can gain one.
  lemma SharkStepHealthy(g: Grid, n: nat, x: nat, y: nat, d: nat)
    requires Site(g, n, x, y) && d < 4 && Healthy(g) && g[y][x].tiletype == Shark
    ensures Healthy(SharkStep(g, n, x, y, d)) && Healthy(SharkStepFixed(g, n, x, y, d))
  {
    var g1 := SharkLeaves(g, n, x, y, d);
    var mover := SharkMover(g, n, x, y, d);
    assert TileHealthy(g[y][x]);
    assert mover.tiletype == Shark && mover.energy <= Starve;
    PutHealthy(g, n, x, y, OceanAt(x, y));
    SettlesHealthy(g1, n, x, y, mover, SharkDest(g, n, x, y, d));
  }

  // A visit moves at most the creature it looks at, so it keeps both
  // invariants; a flagged tile or an Ocean tile is skipped.
  lemma VisitKeeps(g: Grid, n: nat, draw: nat -> nat, k: nat, x: nat, y: nat)
    requires Site(g, n, x, y)
    ensures Stamped(g) ==> Stamped(Visit(g, n, draw, k, x, y).0)
    ensures Healthy(g) ==> Healthy(Visit(g, n, draw, k, x, y).0)
    ensures g[y][x].hasMoved || g[y][x].tiletype == Ocean ==> Visit(g, n, draw, k, x, y) == (g, k)
  {
    var t := g[y][x];
    var d := draw(k) % 4;
    if t.tiletype == Fish && !t.hasMoved {
      FishStepKeeps(g, n, x, y, d);
    } else if t.tiletype == Shark && !t.hasMoved {
      if Stamped(g) { SharkStepStamped(g, n, x, y, d); }
      if Healthy(g) { SharkStepHealthy(g, n, x, y, d); }
    }
  }

  lemma {:induction false} RowKeeps(g: Grid, n: nat, draw: nat -> nat, k: nat, y: nat, x: nat)
    requires 0 < n && IsGrid(g, n) && y < n && x <= n
    ensures Stamped(g) ==> Stamped(Row(g, n, draw, k, y, x).0)
    ensures Healthy(g) ==> Healthy(Row(g, n, draw, k, y, x).0)
    decreases n - x
  {
    if x < n {
      var v := Visit(g, n, draw, k, x, y);
      VisitKeeps(g, n, draw, k, x, y);
      RowKeeps(v.0, n, draw, v.1, y, x + 1);
    }
  }

  lemma {:induction false} RowsKeeps(g: Grid, n: nat, draw: nat -> nat, k: nat, y: nat)
    requires 0 < n && IsGrid(g, n) && y <= n
    ensures Stamped(g) ==> Stamped(Rows(g, n, draw, k, y).0)
    ensures Healthy(g) ==> Healthy(Rows(g, n, draw, k, y).0)
    decreases n - y
  {
    if y < n {
      var v := Row(g, n, draw, k, y, 0);
      RowKeeps(g, n, draw, k, y, 0);
      RowsKeeps(v.0, n, draw, v.1, y + 1);
    }
  }

  // A whole generation (moveCreatures followed by the reset pass) keeps
  // every tile carrying its own position and every creature within bounds,
  // whatever numbers the generator draws.
  lemma GenerationKeeps(g: Grid, n: nat, draw: nat -> nat, k: nat)
    requires 0 < n && IsGrid(g, n)
    ensures Stamped(g) ==> Stamped(Tick(g, n, draw, k).0) && Stamped(ClearFlags(Tick(g, n, draw, k).0))
    ensures Healthy(g) ==> Healthy(Tick(g, n, draw, k).0) && Healthy(ClearFlags(Tick(g, n, draw, k).0))
  {
    RowsKeeps(g, n, draw, k, 0);
    ClearFlagsKeeps(Tick(g, n, draw, k).0);
  }

  // A creature that moved during a visit is flagged (or, a starved shark,
  // replaced by Ocean) at its destination, so a visit of that tile straight
  // after the move skips it. Later in the tick the tile can still be
  // overwritten by a stuck shark's copy (StuckCopyOverwritesMover).
  lemma FishMoverSkipped(g: Grid, n: nat, draw: nat -> nat, k: nat, x: nat, y: nat)
    requires Site(g, n, x, y) && g[y][x].tiletype == Fish && !g[y][x].hasMoved
    requires FishTarget(g, n, x, y, draw(k) % 4).Some?
    ensures var v := Visit(g, n, draw, k, x, y);
      var c := NeighbourCoord(n, x, y, FishTarget(g, n, x, y, draw(k) % 4).value);
      v.1 == k + 1 && Visit(v.0, n, draw, v.1, c.0, c.1) == v
  {
    var v := Visit(g, n, draw, k, x, y);
    var c := NeighbourCoord(n, x, y, FishTarget(g, n, x, y, draw(k) % 4).value);
    FishMoves(g, n, x, y, draw(k) % 4);
    VisitKeeps(v.0, n, draw, v.1, c.0, c.1);
  }

  lemma SharkMoverSkipped(g: Grid, n: nat, draw: nat -> nat, k: nat, x: nat, y: nat)
    requires Site(g, n, x, y) && g[y][x].tiletype == Shark && !g[y][x].hasMoved
    requires SharkTarget(g, n, x, y, draw(k) % 4).Some?
    ensures var v := Visit(g, n, draw, k, x, y);
      var c := NeighbourCoord(n, x, y, SharkTarget(g, n, x, y, draw(k) % 4).value);
      v.1 == k + 1 && Visit(v.0, n, draw, v.1, c.0, c.1) == v
  {
    var v := Visit(g, n, draw, k, x, y);
    var c := NeighbourCoord(n, x, y, SharkTarget(g, n, x, y, draw(k) % 4).value);
    SharkMoves(g, n, x, y, draw(k) % 4);
    VisitKeeps(v.0, n, draw, v.1, c.0, c.1);
  }

  // ----------------------------------------------------------- initial layout

  lemma MulSign(b: int, t: int)
    requires 0 < b
    ensures t >= 1 ==> b * t >= b
    ensures t <= -1 ==> b * t <= -b
  {
    if t >= 1 { assert b * t == b + b * (t - 1); }
    if t <= -1 { assert b * t == -b + b * (t + 1); }
  }

  // The Euclidean remainder is the only one in [0, b).
  lemma ModUnique(m: int, b: int, q: int, r: int)
    requires 0 < b && m == b * q + r && 0 <= r < b
    ensures m % b == r
  {
    var t := q - m / b;
    assert b * t == m % b - r;
    MulSign(b, t);
  }

  // A C++ remainder is zero exactly when the Euclidean one is.
  lemma CRemZero(a: int, b: int)
    requires 0 < b
    ensures CRem(a, b) == 0 <==> a % b == 0
  {
    if a < 0 {
      if a % b == 0 {
        ModUnique(-a, b, -(a / b), 0);
      }
      if (-a) % b == 0 {
        ModUnique(a, b, -((-a) / b), 0);
      }
    }
  }

  // initializeWorld puts a shark on every 18th diagonal x - y, a fish on
  // every 10th one that is not a shark's, and Ocean elsewhere; every tile
  // carries its position, is unflagged and young, and a shark starts with
  // Starve energy.
  lemma InitialLayout(x: nat, y: nat)
    ensures var t := InitialTile(x, y);
      && t.x == x && t.y == y && t.turn == 0 && !t.hasMoved
      && (t.tiletype == Shark <==> (y - x) % 18 == 0)
      && (t.tiletype == Fish <==> (y - x) % 18 != 0 && (y - x) % 10 == 0)
      && (t.tiletype == Shark ==> t.energy == Starve)
  {
    CRemZero(y - x, 18);
    CRemZero(y - x, 10);
  }

  // So the world initializeWorld leaves satisfies both tick invariants and
  // the reset pass has nothing to clear.
  lemma InitialSound(g: Grid, n: nat)
    requires IsGrid(g, n)
    requires forall y, x :: 0 <= y < n && 0 <= x < n ==> g[y][x] == InitialTile(x, y)
    ensures Stamped(g) && Healthy(g) && ClearFlags(g) == g
  {
    forall y, x | 0 <= y < n && 0 <= x < n
      ensures g[y][x].x == x && g[y][x].y == y && TileHealthy(g[y][x]) && !g[y][x].hasMoved
    {
      InitialLayout(x, y);
    }
    ClearFlagsKeeps(g);
    assert forall y :: 0 <= y < n ==> ClearFlags(g)[y] == g[y];
  }

  // -------------------------------------------------------------- reset pass

  // The reset pass clears every flag and changes no other field.
  lemma ClearFlagsKeeps(g: Grid)
    ensures var r := ClearFlags(g);
      forall y, x :: 0 <= y < |g| && 0 <= x < |g[y]| ==>
        && !r[y][x].hasMoved
        && r[y][x].tiletype == g[y][x].tiletype && r[y][x].energy == g[y][x].energy
        && r[y][x].turn == g[y][x].turn && r[y][x].x == g[y][x].x && r[y][x].y == g[y][x].y
    ensures Stamped(g) ==> Stamped(ClearFlags(g))
    ensures Healthy(g) ==> Healthy(ClearFlags(g))
  {
  }

  // Running the reset pass twice is running it once.
  lemma ClearFlagsIdempotent(g: Grid)
    ensures ClearFlags(ClearFlags(g)) == ClearFlags(g)
  {
    var r := ClearFlags(g);
    assert forall y :: 0 <= y < |g| ==> ClearFlags(r)[y] == r[y];
  }

}
