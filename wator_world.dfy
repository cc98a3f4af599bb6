// The Wa-Tor world as the program runs it: one grid of tiles updated in
// place. Each method is proved to leave the grid that the corresponding
// function of WatorRules computes from the grid it started with.

module Wator {
  import opened WatorRules
  import opened WatorProperties

  class World {
    // Side of the square grid (the program's xdim == ydim).
    const n: nat
    // The global tile array, indexed [y, x].
    const tiles: array2<Tile>
    // The grid as a value: row y, column x.
    ghost var cells: Grid

    // The array and `cells` agree.
    ghost predicate Shape()
      reads this, tiles
    {
      && 0 < n && tiles.Length0 == n && tiles.Length1 == n
      && IsGrid(cells, n)
      && forall y, x :: 0 <= y < n && 0 <= x < n ==> tiles[y, x] == cells[y][x]
    }

    // The state every operation but InitializeWorld needs: each tile also
    // carries its own coordinates, which the movers read back.
    ghost predicate Valid()
      reads this, tiles
    {
      Shape() && Stamped(cells)
    }

    // The global `tiles` array before initializeWorld: static storage is
    // zero-initialised, so every tile is Ocean with the member defaults.
    constructor (size: nat)
      requires 0 < size
      ensures Shape() && n == size && fresh(tiles)
      ensures forall y, x :: 0 <= y < n && 0 <= x < n ==> cells[y][x] == DefaultTile
    {
      n := size;
      tiles := new Tile[size, size]((_, _) => DefaultTile);
      cells := seq(size, _ => seq(size, _ => DefaultTile));
    }

    // getTile
    function GetTile(x: nat, y: nat): (t: Tile)
      reads this, tiles
      requires Valid() && x < n && y < n
      ensures t == cells[y][x]
      ensures t.x == x && t.y == y
    {
      tiles[y, x]
    }

    // hasMoved
    function HasMoved(x: nat, y: nat): (b: bool)
      reads this, tiles
      requires Shape() && x < n && y < n
      ensures b == cells[y][x].hasMoved
    {
      tiles[y, x].hasMoved
    }

    // setOcean
    method SetOcean(x: nat, y: nat)
      requires Shape() && x < n && y < n
      modifies this, tiles
      ensures Shape()
      ensures cells == Put(old(cells), x, y, OceanAt(x, y))
      ensures cells[y][x].tiletype == Ocean && cells[y][x].x == x && cells[y][x].y == y
      ensures Stamped(old(cells)) ==> Stamped(cells)
    {
      var tile := OceanAt(x, y);
      tiles[y, x] := tile;
      cells := Put(cells, x, y, tile);
    }

    // setFish
    method SetFish(x: nat, y: nat)
      requires Shape() && x < n && y < n
      modifies this, tiles
      ensures Shape()
      ensures cells == Put(old(cells), x, y, FishAt(x, y))
      ensures cells[y][x].tiletype == Fish && cells[y][x].turn == 0 && !cells[y][x].hasMoved
      ensures Stamped(old(cells)) ==> Stamped(cells)
    {
      var tile := FishAt(x, y);
      tiles[y, x] := tile;
      cells := Put(cells, x, y, tile);
    }

    // setShark
    method SetShark(x: nat, y: nat)
      requires Shape() && x < n && y < n
      modifies this, tiles
      ensures Shape()
      ensures cells == Put(old(cells), x, y, SharkAt(x, y))
      ensures cells[y][x].tiletype == Shark && cells[y][x].energy == Starve
      ensures cells[y][x].turn == 0 && !cells[y][x].hasMoved
      ensures Stamped(old(cells)) ==> Stamped(cells)
    {
      var tile := SharkAt(x, y);
      tiles[y, x] := tile;
      cells := Put(cells, x, y, tile);
    }

    // setTile: stores `tile` with its coordinates replaced by (x, y).
    method SetTile(x: nat, y: nat, tile: Tile)
      requires Shape() && x < n && y < n
      modifies this, tiles
      ensures Shape()
      ensures cells == Put(old(cells), x, y, Stamp(tile, x, y))
      ensures Stamped(old(cells)) ==> Stamped(cells)
    {
      var t := tile.(x := x, y := y);
      tiles[y, x] := t;
      cells := Put(cells, x, y, t);
    }

    // setNeighbours: fills `list` with the N, E, S and W neighbours of (x, y).
    method SetNeighbours(x: nat, y: nat, list: array<Tile>)
      requires Valid() && x < n && y < n && list.Length == 4
      modifies list
      ensures forall j :: 0 <= j < 4 ==> list[j] == NeighbourTile(cells, n, x, y, j)
    {
      var offsetsX := [0, 1, 0, -1];
      var offsetsY := [-1, 0, 1, 0];
      for i := 0 to 4
        invariant forall j :: 0 <= j < i ==> list[j] == NeighbourTile(cells, n, x, y, j)
      {
        WrapByRemainder(x + offsetsX[i], n);
        WrapByRemainder(y + offsetsY[i], n);
        var newX := CRem(x + offsetsX[i] + n, n);
        var newY := CRem(y + offsetsY[i] + n, n);
        list[i] := GetTile(newX, newY);
      }
    }

    // The tiles of `list`, filled by SetNeighbours, carry the coordinates of
    // the neighbours they were copied from.
    lemma ReadBack(list: array<Tile>, x: nat, y: nat)
      requires Valid() && x < n && y < n && list.Length == 4
      requires forall j :: 0 <= j < 4 ==> list[j] == NeighbourTile(cells, n, x, y, j)
      ensures forall j :: 0 <= j < 4 ==> (list[j].x, list[j].y) == NeighbourCoord(n, x, y, j)
    {
      forall j | 0 <= j < 4
        ensures (list[j].x, list[j].y) == NeighbourCoord(n, x, y, j)
      {
        NeighbourAt(cells, n, x, y, j);
      }
    }

    // The body of the `if` in moveFish's loop: `fish`, the copy of the tile
    // at (x, y), has found Ocean at neighbour slot s, which is (x2, y2).
    method MoveFishTo(x: nat, y: nat, x2: nat, y2: nat, fish: Tile, ghost s: nat)
      requires Valid() && x < n && y < n && s < 4
      requires fish == cells[y][x] && (x2, y2) == NeighbourCoord(n, x, y, s)
      modifies this, tiles
      ensures Valid()
      ensures cells == FishMovesTo(old(cells), n, x, y, s)
    {
      var fish := fish;
      fish := fish.(turn := fish.turn + 1);
      fish := fish.(hasMoved := true);
      SetOcean(x, y);
      if fish.turn == FishBreed {
        fish := fish.(turn := 0);
        SetFish(x, y);
      }
      SetTile(x2, y2, fish);
    }

    // moveFish; `r` is the number lrand48_r produced.
    method MoveFish(x: nat, y: nat, r: nat)
      requires Valid() && x < n && y < n
      modifies this, tiles
      ensures Valid()
      ensures cells == FishStep(old(cells), n, x, y, r % 4)
    {
      var fish := GetTile(x, y);
      var neighbours := new Tile[4];
      SetNeighbours(x, y, neighbours);
      var d: nat := r % 4;
      var location: nat := d;
      ghost var kinds := Kinds(cells, n, x, y);
      ghost var rotate := !fish.hasMoved;
      ReadBack(neighbours, x, y);
      var i := 0;
      while i < 4
        invariant 0 <= i <= 4 && unchanged(this, tiles)
        invariant forall j :: 0 <= j < 4 ==> (neighbours[j].x, neighbours[j].y) == NeighbourCoord(n, x, y, j)
        invariant Scanning(kinds, Ocean, d, rotate, i, location)
      {
        var x2 := neighbours[location].x;
        var y2 := neighbours[location].y;
        assert tiles[y2, x2] == NeighbourTile(cells, n, x, y, location);
        if tiles[y2, x2].tiletype == Ocean {
          ScanHit(kinds, Ocean, d, rotate, i);
          MoveFishTo(x, y, x2, y2, fish, location);
          break;
        }
        MissNext(kinds, Ocean, d, rotate, i);
        ProbeNext(d, i, rotate);
        if !fish.hasMoved {
          location := (location + 1) % 4;
        }
        i := i + 1;
      }
    }

    // The writes after moveShark's loops: `shark` is the updated copy and
    // (x2, y2) the last scanned neighbour.
    method SettleShark(x: nat, y: nat, x2: nat, y2: nat, shark: Tile)
      requires Valid() && x < n && y < n && x2 < n && y2 < n
      modifies this, tiles
      ensures Valid()
      ensures cells == SharkSettles(old(cells), n, x, y, shark, (x2, y2))
    {
      var shark := shark;
      if shark.hasMoved {
        if shark.turn >= SharkBreed {
          shark := shark.(turn := 0);
          SetShark(x, y);
        }
        if shark.energy < 0 {
          SetOcean(x2, y2);
        } else {
          SetTile(x2, y2, shark);
        }
      } else {
        // Sharks still starve if they do not move. One that has not starved
        // is written over the last scanned neighbour, not back at (x, y).
        if shark.energy < 0 {
          SetOcean(x, y);
        } else {
          SetTile(x2, y2, shark);
        }
      }
    }

    // The first loop of moveShark: from slot d, look for a fish; on finding
    // one, flag the shark, add the energy gain and clear the origin. `shark`
    // is the copy of the tile at (x, y) with its energy and turn already
    // updated, `list` the neighbours.
    method HuntFish(x: nat, y: nat, list: array<Tile>, shark: Tile, d: nat)
        returns (shark': Tile, location: nat, x2: nat, y2: nat, foundFish: bool)
      requires Valid() && x < n && y < n && d < 4 && list.Length == 4
      requires forall j :: 0 <= j < 4 ==> (list[j].x, list[j].y) == NeighbourCoord(n, x, y, j)
      requires shark.hasMoved == cells[y][x].hasMoved
      modifies this, tiles
      ensures Valid()
      ensures foundFish == PreySlot(old(cells), n, x, y, d).Some?
      ensures foundFish ==>
        && cells == Put(old(cells), x, y, OceanAt(x, y))
        && shark' == shark.(hasMoved := true, energy := shark.energy + EnergyGain)
        && (x2, y2) == NeighbourCoord(n, x, y, PreySlot(old(cells), n, x, y, d).value)
      ensures !foundFish ==>
        && cells == old(cells) && shark' == shark && location == d
        && (x2, y2) == NeighbourCoord(n, x, y, Probe(d, 3, !shark.hasMoved))
    {
      shark' := shark;
      location := d;
      x2, y2 := 0, 0;
      foundFish := false;
      ghost var kinds := Kinds(cells, n, x, y);
      ghost var rotate := !shark.hasMoved;
      var i := 0;
      while i < 4
        invariant 0 <= i <= 4 && unchanged(this, tiles) && shark' == shark
        invariant forall j :: 0 <= j < 4 ==> (list[j].x, list[j].y) == NeighbourCoord(n, x, y, j)
        invariant Scanning(kinds, Fish, d, rotate, i, location)
        invariant 0 < i ==> (x2, y2) == NeighbourCoord(n, x, y, Probe(d, i - 1, rotate))
      {
        x2 := list[location].x;
        y2 := list[location].y;
        assert tiles[y2, x2] == NeighbourTile(cells, n, x, y, location);
        if tiles[y2, x2].tiletype == Fish {
          ScanHit(kinds, Fish, d, rotate, i);
          shark' := shark'.(hasMoved := true);
          shark' := shark'.(energy := shark'.energy + EnergyGain);
          SetOcean(x, y);
          foundFish := true;
          return;
        }
        MissNext(kinds, Fish, d, rotate, i);
        ProbeNext(d, i, rotate);
        if !shark'.hasMoved {
          location := (location + 1) % 4;
        }
        i := i + 1;
      }
    }

    // The second loop of moveShark, run when no fish was found and the shark
    // is unflagged: from slot d, look for Ocean; on finding it, flag the
    // shark and clear the origin.
    method SeekOcean(x: nat, y: nat, list: array<Tile>, shark: Tile, d: nat)
        returns (shark': Tile, location: nat, x2: nat, y2: nat)
      requires Valid() && x < n && y < n && d < 4 && list.Length == 4
      requires forall j :: 0 <= j < 4 ==> (list[j].x, list[j].y) == NeighbourCoord(n, x, y, j)
      requires !shark.hasMoved
      modifies this, tiles
      ensures Valid()
      ensures shark'.hasMoved == Scan(Kinds(old(cells), n, x, y), Ocean, d, true).Some?
      ensures shark'.hasMoved ==>
        && cells == Put(old(cells), x, y, OceanAt(x, y))
        && shark' == shark.(hasMoved := true)
        && (x2, y2) == NeighbourCoord(n, x, y, Scan(Kinds(old(cells), n, x, y), Ocean, d, true).value)
      ensures !shark'.hasMoved ==>
        && cells == old(cells) && shark' == shark
        && (x2, y2) == NeighbourCoord(n, x, y, Probe(d, 3, true))
    {
      shark' := shark;
      location := d;
      x2, y2 := 0, 0;
      ghost var kinds := Kinds(cells, n, x, y);
      var i := 0;
      while i < 4
        invariant 0 <= i <= 4 && unchanged(this, tiles) && shark' == shark
        invariant forall j :: 0 <= j < 4 ==> (list[j].x, list[j].y) == NeighbourCoord(n, x, y, j)
        invariant Scanning(kinds, Ocean, d, true, i, location)
        invariant 0 < i ==> (x2, y2) == NeighbourCoord(n, x, y, Probe(d, i - 1, true))
      {
        x2 := list[location].x;
        y2 := list[location].y;
        if tiles[y2, x2].tiletype == Ocean {
          ScanHit(kinds, Ocean, d, true, i);
          shark' := shark'.(hasMoved := true);
          SetOcean(x, y);
          return;
        }
        MissNext(kinds, Ocean, d, true, i);
        ProbeNext(d, i, true);
        if !shark'.hasMoved {
          location := (location + 1) % 4;
        }
        i := i + 1;
      }
    }

    // The two loops of moveShark: `shark` is the copy of the tile at (x, y)
    // with its energy and turn already updated. They leave the grid, the
    // copy and the last scanned neighbour that the final writes use.
    method SharkLoops(x: nat, y: nat, list: array<Tile>, shark: Tile, d: nat)
        returns (shark': Tile, x2: nat, y2: nat)
      requires Valid() && x < n && y < n && d < 4 && list.Length == 4
      requires forall j :: 0 <= j < 4 ==> (list[j].x, list[j].y) == NeighbourCoord(n, x, y, j)
      requires shark == cells[y][x].(energy := cells[y][x].energy - 1, turn := cells[y][x].turn + 1)
      modifies this, tiles
      ensures Valid()
      ensures cells == SharkLeaves(old(cells), n, x, y, d)
      ensures shark' == SharkMover(old(cells), n, x, y, d)
      ensures (x2, y2) == SharkDest(old(cells), n, x, y, d)
    {
      var location, foundFish;
      ghost var g0 := cells;
      shark', location, x2, y2, foundFish := HuntFish(x, y, list, shark, d);
      if foundFish {
        SharkEats(g0, n, x, y, d, shark, cells, shark', (x2, y2));
      } else if !shark'.hasMoved {
        shark', location, x2, y2 := SeekOcean(x, y, list, shark', location);
        if shark'.hasMoved {
          SharkSwims(g0, n, x, y, d, shark, cells, shark', (x2, y2));
        } else {
          SharkStays(g0, n, x, y, d, shark, (x2, y2));
        }
      } else {
        SharkStays(g0, n, x, y, d, shark, (x2, y2));
      }
    }

    // moveShark; `r` is the number lrand48_r produced.
    method MoveShark(x: nat, y: nat, r: nat)
      requires Valid() && x < n && y < n
      modifies this, tiles
      ensures Valid()
      ensures cells == SharkStep(old(cells), n, x, y, r % 4)
    {
      var shark := GetTile(x, y);
      var neighbours := new Tile[4];
      SetNeighbours(x, y, neighbours);
      var location := r % 4;
      shark := shark.(energy := shark.energy - 1);
      shark := shark.(turn := shark.turn + 1);
      var x2, y2;
      ReadBack(neighbours, x, y);
      shark, x2, y2 := SharkLoops(x, y, neighbours, shark, location);
      SettleShark(x, y, x2, y2, shark);
    }

    // The body of moveCreatures' inner loop at (x, y); `k` is the position
    // of the next unused number of `draw`.
    method VisitTile(x: nat, y: nat, draw: nat -> nat, k: nat) returns (k': nat)
      requires Valid() && x < n && y < n
      modifies this, tiles
      ensures Valid()
      ensures (cells, k') == Visit(old(cells), n, draw, k, x, y)
    {
      k' := k;
      if tiles[y, x].tiletype == Fish && !HasMoved(x, y) {
        MoveFish(x, y, draw(k));
        k' := k + 1;
      } else if tiles[y, x].tiletype == Shark && !HasMoved(x, y) {
        MoveShark(x, y, draw(k));
        k' := k + 1;
      }
    }

    // moveCreatures on one thread: rows top to bottom, each left to right; a
    // fish or shark whose flag is clear moves, taking the next number of the
    // stream `draw`, whose first unused position is k0. Returns the position
    // of the next unused number.
    method MoveCreatures(draw: nat -> nat, k0: nat) returns (k: nat)
      requires Valid()
      modifies this, tiles
      ensures Valid()
      ensures (cells, k) == Tick(old(cells), n, draw, k0)
    {
      ghost var result := Tick(cells, n, draw, k0);
      k := k0;
      var y := 0;
      while y < n
        invariant 0 <= y <= n && Valid()
        invariant TickRowsLeft(cells, n, draw, k, y, result)
      {
        RowsNext(cells, n, draw, k, y);
        k := MoveRow(y, draw, k);
        y := y + 1;
      }
    }

    // The inner loop of moveCreatures over row y.
    method MoveRow(y: nat, draw: nat -> nat, k0: nat) returns (k: nat)
      requires Valid() && y < n
      modifies this, tiles
      ensures Valid()
      ensures (cells, k) == Row(old(cells), n, draw, k0, y, 0)
    {
      ghost var result := Row(cells, n, draw, k0, y, 0);
      k := k0;
      var x := 0;
      while x < n
        invariant 0 <= x <= n && Valid()
        invariant RowLeft(cells, n, draw, k, y, x, result)
      {
        RowNext(cells, n, draw, k, y, x);
        k := VisitTile(x, y, draw, k);
        x := x + 1;
      }
    }

    // The pass after each tick that clears every `hasMoved` flag. The
    // program writes tiles[x][y] while y runs over the rows: on the square
    // grid this still reaches every tile once.
    method ResetMoved()
      requires Shape()
      modifies this, tiles
      ensures Shape() && (Stamped(old(cells)) ==> Stamped(cells))
      ensures cells == ClearFlags(old(cells))
    {
      var y := 0;
      while y < n
        invariant 0 <= y <= n && cells == old(cells)
        invariant forall r, c :: 0 <= r < n && 0 <= c < n ==>
          tiles[r, c] == if c < y then cells[r][c].(hasMoved := false) else cells[r][c]
      {
        var x := 0;
        while x < n
          invariant 0 <= x <= n && cells == old(cells)
          invariant forall r, c :: 0 <= r < n && 0 <= c < n ==>
            tiles[r, c] == if c < y || (c == y && r < x) then cells[r][c].(hasMoved := false) else cells[r][c]
        {
          tiles[x, y] := tiles[x, y].(hasMoved := false);
          x := x + 1;
        }
        y := y + 1;
      }
      ClearFlagsKeeps(cells);
      cells := ClearFlags(cells);
    }

    // initializeWorld without the display and the generator seeding: every
    // tile is first made Ocean, then a shark where (y - x) % 18 == 0 and
    // otherwise a fish where (y - x) % 10 == 0.
    method InitializeWorld()
      requires Shape()
      modifies this, tiles
      ensures Valid()
      ensures forall y, x :: 0 <= y < n && 0 <= x < n ==> cells[y][x] == InitialTile(x, y)
      ensures Healthy(cells)
    {
      var y := 0;
      while y < n
        invariant 0 <= y <= n && Shape()
        invariant forall r, c :: 0 <= r < y && 0 <= c < n ==> cells[r][c] == InitialTile(c, r)
      {
        var x := 0;
        while x < n
          invariant 0 <= x <= n && Shape()
          invariant forall r, c :: 0 <= r < y && 0 <= c < n ==> cells[r][c] == InitialTile(c, r)
          invariant forall c :: 0 <= c < x ==> cells[y][c] == InitialTile(c, y)
        {
          SetOcean(x, y);
          var id := y * 1 - x;
          if CRem(id, 18) == 0 {
            SetShark(x, y);
          } else if CRem(id, 10) == 0 {
            SetFish(x, y);
          }
          x := x + 1;
        }
        y := y + 1;
      }
      InitialSound(cells, n);
    }

    // One iteration of the simulation loop of runSimulation, without the
    // event polling, timing and drawing: moveCreatures, then the reset pass.
    method Step(draw: nat -> nat, k0: nat) returns (k: nat)
      requires Valid()
      modifies this, tiles
      ensures Valid()
      ensures var t := Tick(old(cells), n, draw, k0); cells == ClearFlags(t.0) && k == t.1
      ensures Healthy(old(cells)) ==> Healthy(cells)
    {
      GenerationKeeps(cells, n, draw, k0);
      k := MoveCreatures(draw, k0);
      ResetMoved();
    }
  }
}
