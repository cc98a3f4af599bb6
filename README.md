# Wa-Tor rule engine

A Dafny model of the rule engine of the Wa-Tor predator–prey simulation in
`wator.cpp`. The world is a square torus of tiles. Each tile is Ocean, a fish
or a shark, and carries an energy, a turn counter (age since breeding), its
own coordinates and a `hasMoved` flag. One generation works as follows:

- `moveCreatures` visits the grid row by row, left to right.
- Every fish or shark whose flag is clear takes one random draw `d` in
  [0, 4).
- A fish scans its N, E, S, W neighbours from `d` for Ocean, moves there and
  may breed.
- A shark spends one energy and ages one turn. It scans for a fish (which it
  eats), else for Ocean. It may breed, and it starves once its energy drops
  below zero.
- A reset pass then clears every flag.

The model has three modules:

- `WatorRules` (`wator_rules.dfy`) holds the value model. A grid is a
  `seq<seq<Tile>>` indexed `[y][x]`. The module defines the tile writers,
  the neighbour arithmetic (including C++ truncating `%` as `CRem`), the
  four-attempt scan, one move of a fish (`FishStep`) and of a shark
  (`SharkStep`), a tick (`Tick`, as `Visit`/`Row`/`Rows`), the reset pass
  (`ClearFlags`) and the initial layout (`InitialTile`).
- `Wator` (`wator_world.dfy`) holds the class `World`, which is the global
  `tiles` array as an `array2<Tile>` updated in place. Its methods are the
  program's `getTile`, `hasMoved`, `setOcean`, `setFish`, `setShark`,
  `setTile`, `setNeighbours`, `moveFish`, `moveShark`, `moveCreatures`,
  the reset loop and `initializeWorld`. Each method is proved to leave the
  array equal to the corresponding `WatorRules` function of the old array.
  The ghost field `cells` mirrors the array as a value.
- `WatorProperties` (`wator_properties.dfy`) holds what the rules promise:
  - neighbour geometry;
  - which tiles each move changes and how;
  - population counts;
  - the preference for fish;
  - breeding and starvation;
  - the stuck-shark defect and its correction;
  - invariants kept by a whole generation (every tile carries its own
    position, a shark's energy stays in [0, Starve], a fish's turn stays 0);
  - a mover's destination is skipped by a visit straight after the move
    (not for the rest of the tick; see `StuckCopyOverwritesMover`);
  - the initial layout;
  - idempotence of the reset pass.

Random draws are an input. `MoveFish`/`MoveShark` take the raw number `r`
that `lrand48_r` would have produced and use `r % 4`. `MoveCreatures` takes
a stream `draw: nat -> nat` and the position of its next unused number, and
uses one number per mover call.

The movers require every tile to carry its own coordinates (`World.Valid`),
because the program reads a neighbour's position back from the copied tile.
`InitializeWorld` establishes this and every operation keeps it.

Three behaviours of the code are worth noting; the model follows the code:

- A fish that cannot move is not flagged. The grid is left exactly as it
  was.
- Only the moved creature is flagged. A newborn left at the origin is
  unflagged, but the origin has already been passed by the scan.
- A shark with neither a fish nor Ocean next to it is not kept in place (see
  Findings).

## Model

| member | source | states |
|---|---|---|
| WatorRules.CRem | wator.cpp:161-162 | C++ `%` on int: a == b * q + r with the quotient q truncated toward zero, and the remainder lies strictly between -b and b with the sign of the dividend |
| WatorRules.Put | wator.cpp:92 | storing a tile into the grid keeps its dimensions and puts that tile at (x, y); PutAt adds that no other tile changes |
| WatorRules.WrapByRemainder | wator.cpp:161-162 | `(a + n) % n` for a coordinate at most one step off the torus is that coordinate wrapped back into [0, n) |
| WatorRules.NeighbourCoord | wator.cpp:156-165 | every neighbour coordinate is inside the n x n grid |
| WatorRules.NeighbourAt | wator.cpp:163-182 | on a grid whose tiles carry their positions, the `x`/`y` read back from neighbour i are neighbour i's coordinates |
| WatorRules.Probe | wator.cpp:178-195 | the slot tried on each attempt is in [0, 4); it stays at d when the copied flag is already set |
| WatorRules.ProbeNext | wator.cpp:193-195 | one more attempt advances the slot by `(location + 1) % 4` exactly when the copied flag is clear |
| WatorRules.Scan | wator.cpp:179-196 | a found slot holds the wanted kind, and nothing is found exactly when all four attempts miss |
| WatorRules.ScanHit | wator.cpp:182-192 | a first hit on attempt i is the slot the scan returns |
| WatorRules.MissNext | wator.cpp:193-195 | a miss extends the run of misses by one attempt |
| WatorRules.SharkEats | wator.cpp:216-229 | when the first loop finds a fish, the loops leave the grid with the origin cleared, the copy flagged and fed, and the fish's tile as destination |
| WatorRules.SharkSwims | wator.cpp:231-244 | when only the second loop finds Ocean, the loops leave the grid with the origin cleared, the copy flagged, and the Ocean tile as destination |
| WatorRules.SharkStays | wator.cpp:216-244 | when neither loop finds anything, the loops leave the grid unchanged, the copy unflagged, and the last scanned neighbour as destination |
| WatorRules.FishMovesTo | wator.cpp:183-191 | the writes of a fish that found Ocean, as a grid; its contract keeps the n x n shape, and FishMoves states what it writes |
| WatorRules.FishStep | wator.cpp:172-197 | moveFish as a function of the grid and start slot; its contract keeps the n x n shape, and FishMoves, FishBlocked, FishCounts and FishStepKeeps state what it does |
| WatorRules.SharkSettles | wator.cpp:246-264 | the final writes of moveShark, stuck branch as written; its contract keeps the n x n shape, and SettlesStamped and SettlesHealthy state what it keeps |
| WatorRules.SharkStep | wator.cpp:204-265 | moveShark as a function of the grid and start slot; its contract keeps the n x n shape, and SharkMoves, SharkCounts, SharkStuckAsWritten and SharkStepHealthy state what it does |
| WatorRules.SharkStepFixed | wator.cpp:204-265 | moveShark with the stuck branch corrected; its contract keeps the n x n shape, and SharkStuckFixed, SharkFixAgrees and FixedStepSparesSharks state what it does |
| WatorRules.Visit | wator.cpp:322-327 | one iteration of moveCreatures' inner loop; its contract keeps the n x n shape, and VisitKeeps states that flagged and Ocean tiles are skipped without a draw |
| WatorRules.Tick | wator.cpp:318-331 | moveCreatures in row-major order; its contract keeps the n x n shape, and GenerationKeeps states the invariants it keeps |
| WatorRules.ClearFlags | wator.cpp:351-356 | the reset pass keeps the grid's dimensions; ClearFlagsKeeps and ClearFlagsIdempotent state what it does |
| WatorRules.InitialTile | wator.cpp:302-308 | the tile initializeWorld leaves at (x, y) carries (x, y), turn 0 and a clear flag; InitialLayout gives its kind |
| WatorRules.Row | wator.cpp:321-329 | visiting the rest of a row uses between none and one draw per remaining tile |
| WatorRules.Rows | wator.cpp:320-330 | a pass over the remaining rows never goes back in the draw stream |
| Wator.World.constructor | wator.cpp:57 | the static `tiles` array starts with every tile zero-initialised Ocean |
| Wator.World.GetTile | wator.cpp:134-136 | returns the tile at (x, y), which carries the coordinates (x, y) |
| Wator.World.HasMoved | wator.cpp:79 | returns the flag of the tile at (x, y) |
| Wator.World.SetOcean | wator.cpp:86-93 | writes Ocean with default energy, turn and flag, stamped (x, y); no other tile changes |
| Wator.World.SetFish | wator.cpp:100-109 | writes a fish with turn 0, unflagged, stamped (x, y); no other tile changes |
| Wator.World.SetShark | wator.cpp:116-126 | writes a shark with energy `starve`, turn 0, unflagged, stamped (x, y); no other tile changes |
| Wator.World.SetTile | wator.cpp:144-148 | writes the given tile with its coordinates replaced by (x, y); no other tile changes |
| Wator.World.SetNeighbours | wator.cpp:156-165 | fills the four-entry list with the N, E, S, W neighbours, computed by the program's `(x + dx + n) % n` |
| Wator.World.ReadBack | wator.cpp:180-181 | the coordinates read from the list are the neighbours' coordinates |
| Wator.World.MoveFishTo | wator.cpp:183-191 | the writes of a fish that found Ocean are `FishMovesTo` of the old grid |
| Wator.World.MoveFish | wator.cpp:172-197 | the array afterwards is `FishStep` of the old array with slot `r % 4` |
| Wator.World.HuntFish | wator.cpp:216-229 | a fish is found exactly when some neighbour is a fish in scan order; then the origin alone is cleared and the copy is flagged and gains `energyGain`; otherwise nothing changes |
| Wator.World.SeekOcean | wator.cpp:231-244 | Ocean is found exactly when the rotating scan finds it; then the origin alone is cleared and the copy flagged; otherwise nothing changes and the last slot tried is d + 3 |
| Wator.World.SharkLoops | wator.cpp:216-244 | the two loops of moveShark leave exactly `SharkLeaves`, `SharkMover` and `SharkDest` of the old grid: the grid, the updated copy and the last scanned neighbour |
| Wator.World.SettleShark | wator.cpp:246-264 | the final writes of moveShark are `SharkSettles` of the old grid, including the stuck branch as written |
| Wator.World.MoveShark | wator.cpp:204-265 | the array afterwards is `SharkStep` of the old array with slot `r % 4` |
| Wator.World.VisitTile | wator.cpp:322-327 | a fish or shark with a clear flag moves and uses one draw; any other tile is left alone |
| Wator.World.MoveRow | wator.cpp:321-329 | the inner loop over row y leaves `Row` of the old array, one draw per mover |
| Wator.World.MoveCreatures | wator.cpp:318-331 | the array afterwards is `Tick` of the old one: rows top to bottom, each left to right, one draw per mover |
| Wator.World.ResetMoved | wator.cpp:351-356 | the reset loop, indexing `tiles[x][y]`, clears every flag and nothing else |
| Wator.World.InitializeWorld | wator.cpp:298-310 | every tile becomes `InitialTile(x, y)`, every tile carries its position, and the bounds on energy and turn hold |
| Wator.World.Step | wator.cpp:348-356 | one generation is `ClearFlags(Tick(...))` and keeps the bounds on energy and turn |
| WatorProperties.PutAt | wator.cpp:86-148 | a writer changes the one tile it names and nothing else |
| WatorProperties.PutStamped | wator.cpp:86-148 | writing a tile stamped with its position keeps every tile carrying its position |
| WatorProperties.NeighbourOffsets | wator.cpp:157-163 | neighbour i is `((x + dx[i] + n) % n, (y + dy[i] + n) % n)` with offsets N(0,-1), E(1,0), S(0,1), W(-1,0), one step along one axis |
| WatorProperties.NeighbourBack | wator.cpp:157-158 | neighbour (i + 2) % 4 of neighbour i is the tile itself |
| WatorProperties.NeighboursDistinct | wator.cpp:156-165 | on a torus at least 3 wide the four neighbours are distinct and differ from the tile |
| WatorProperties.CountPut | wator.cpp:86-148 | a write changes the count of each kind by what it removes and adds |
| WatorProperties.CountPartition | wator.cpp:57 | Ocean, fish and shark counts add up to n * n |
| WatorProperties.ScanRotating | wator.cpp:179-196 | with rotation the scan finds a kind exactly when some neighbour has it |
| WatorProperties.ScanFixed | wator.cpp:193-195 | with the flag already set the scan retries slot d four times |
| WatorProperties.FishMoves | wator.cpp:179-192 | a fish that found Ocean moves to that neighbour one turn older and flagged; on reaching `fishBreed` its turn restarts and a newborn fish is left behind, otherwise the origin becomes Ocean; no other tile changes |
| WatorProperties.FishBlocked | wator.cpp:179-196 | with no Ocean found the grid is unchanged, and an unflagged fish finds Ocean exactly when it has an Ocean neighbour |
| WatorProperties.FishCounts | wator.cpp:183-190 | the fish count rises by one exactly when the fish moves and breeds; the shark count is unchanged |
| WatorProperties.SharkPrefersFish | wator.cpp:216-244 | an unflagged shark targets a fish whenever one is adjacent, Ocean only when no fish is, and nothing when neither is |
| WatorProperties.SharkMovingMover | wator.cpp:211-243 | a shark that moves goes to its target, which is not a shark and not the origin, with energy - 1 (+ `energyGain` on a fish), turn + 1 and the flag set |
| WatorProperties.SharkMovingWrites | wator.cpp:246-256 | a moving shark's writes are the origin (newborn shark or Ocean), then the destination (mover or Ocean if starved) |
| WatorProperties.SharkMoves | wator.cpp:204-256 | origin becomes a fresh shark at `turn + 1 >= sharkBreed` and Ocean otherwise; destination becomes Ocean when energy drops below 0 and the updated, flagged shark otherwise; no other tile changes |
| WatorProperties.SharkCountsMoving | wator.cpp:246-256 | a moving shark removes the fish it lands on, adds a shark when it breeds and removes one when it starves |
| WatorProperties.SharkCounts | wator.cpp:204-264 | the fish count drops by one exactly when a fish is adjacent; a shark is born exactly on a move at breeding age and dies exactly when energy drops below 0 |
| WatorProperties.SharkStuckAsWritten | wator.cpp:257-264 | a stuck shark with energy left stays untouched at the origin while its updated copy overwrites the shark at neighbour (d + 3) % 4; no other tile changes |
| WatorProperties.SharkStuckFixed | wator.cpp:257-264 | corrected: a stuck shark stays at the origin with energy - 1 and turn + 1, or dies there, and no other tile changes |
| WatorProperties.SharkFixAgrees | wator.cpp:246-260 | the correction changes nothing when the shark can move or starves |
| WatorProperties.PutHealthy | wator.cpp:86-148 | writing a tile within the bounds keeps every tile within the bounds |
| WatorProperties.FishStepKeeps | wator.cpp:172-197 | moveFish keeps positions stamped and the bounds; a fish within the bounds breeds on every move |
| WatorProperties.SettlesStamped | wator.cpp:246-264 | the final writes of moveShark keep every tile carrying its position |
| WatorProperties.SettlesHealthy | wator.cpp:246-264 | the final writes never store a shark with negative energy |
| WatorProperties.SharkStepStamped | wator.cpp:204-265 | moveShark, as written and corrected, keeps every tile carrying its position |
| WatorProperties.SharkStepHealthy | wator.cpp:211-264 | moveShark keeps every shark's energy within [0, `starve`] |
| WatorProperties.VisitKeeps | wator.cpp:322-327 | a visit keeps both invariants, and a flagged or Ocean tile is skipped without a draw |
| WatorProperties.RowKeeps | wator.cpp:321-329 | the rest of a row keeps both invariants |
| WatorProperties.RowsKeeps | wator.cpp:320-330 | the remaining rows keep both invariants |
| WatorProperties.GenerationKeeps | wator.cpp:318-356 | a tick and the reset pass keep every tile carrying its position and every shark's energy within [0, `starve`] for any draws |
| WatorProperties.FishMoverSkipped | wator.cpp:318-331 | a visit of a moved fish's destination straight after the move skips it without a draw |
| WatorProperties.SharkMoverSkipped | wator.cpp:318-331 | a visit of a moved (or starved) shark's destination straight after the move skips it without a draw |
| WatorProperties.StuckCopyOverwritesMover | wator.cpp:257-264 | on the 3 x 3 scenario of Findings, the tick moves a shark to (1, 1), a stuck shark's unflagged copy then replaces it there, and the visit of (1, 1) moves that copy with a third draw |
| WatorProperties.FixedStepSparesSharks | wator.cpp:204-264 | with the stuck branch corrected, the step of a shark with a clear flag changes no other tile that holds a shark |
| WatorProperties.FishStepSparesSharks | wator.cpp:172-197 | a fish's step changes no tile other than its own that holds a shark |
| WatorProperties.CRemZero | wator.cpp:303-306 | C++ `id % m == 0` holds exactly when Dafny's Euclidean `id % m == 0` does |
| WatorProperties.InitialLayout | wator.cpp:298-310 | a tile is a shark exactly when 18 divides y - x, a fish exactly when 10 but not 18 divides it, otherwise Ocean; it carries its position, turn 0, a clear flag, and a shark has energy `starve` |
| WatorProperties.InitialSound | wator.cpp:298-310 | the initial world keeps both invariants and has no flags to clear |
| WatorProperties.ClearFlagsKeeps | wator.cpp:354 | the reset clears every flag and leaves every other field unchanged |
| WatorProperties.ClearFlagsIdempotent | wator.cpp:351-356 | running the reset pass twice is running it once |

## Left out

- SFML display: `window`, `display`, `draw`, `pollEvents`, `getColor`, the colour field and every `setFillColor` call. These are display only; a colour is a picture of `tiletype`.
- OpenMP: the `parallel for collapse(2)` pragmas and thread counts. The tick is modelled in its one-thread row-major order. Races between threads are not modelled.
- Random numbers: `srand48`, `lrand48_r` and the per-thread `drand48_data`. Each draw is a parameter: `r` for one move, a stream `draw` for a tick.
- The benchmark driver `runSimulation`/`main`: the thread-count loop, the tick budget, timing, `durations` and `printf`. `Step` models one iteration of its loop body without these.
- The grid side is the parameter `n` of `World` rather than the fixed 800. The program's `tiles[xdim][ydim]` indexed `[y][x]` and the reset's `tiles[x][y]` agree only because the grid is square; the model is square by construction.
- Integer widths: `energy` and `turn` are unbounded integers, and 32-bit overflow is not modelled. It is not reached in a run of the program's length. Energy stays in [0, `starve`] (`GenerationKeeps`). A turn rises by at most one per mover call. A tick makes at most n * n mover calls, the driver runs 100 ticks, and `initializeWorld` resets every tile before each run.
- SharkMoverSkipped: covers only a visit straight after the move. Later in the same tick a stuck shark's copy can overwrite the destination (`StuckCopyOverwritesMover`), so the tick as written does not always skip a moved shark's tile.
- FishMoverSkipped: covers only a visit straight after the move. No lemma covers the later visits of the same tick, so the claim is not made for the rest of the tick.
- The helper methods `MoveFishTo`, `HuntFish`, `SeekOcean`, `SharkLoops`, `SettleShark`, `VisitTile` and `MoveRow` are parts of the bodies of `moveFish`, `moveShark` and `moveCreatures`, split out so that each part is proved on its own. The loops keep the program's `location` rotation, its early `break` and its `x2`/`y2` locals.

## Findings

| source | as written | input that shows it | evidently intended | confidence | as-written member | corrected member |
|---|---|---|---|---|---|---|
| wator.cpp:257-264 | a shark with no fish and no Ocean next to it and energy left after the decrement runs `setTile(x2, y2, shark)`. (x2, y2) is the last neighbour scanned, slot (d + 3) % 4, which holds another shark. That shark is overwritten by the mover's updated copy, unflagged, and the origin keeps the old shark with its energy and turn unchanged | a 3 x 3 grid of sharks, all unflagged; the centre (1, 1) has energy 2 and d = 0. The last slot scanned is W, so (0, 1) is replaced by the centre shark with energy 1 and turn + 1, and (1, 1) still holds energy 2 | the stuck shark stays at (x, y) with energy - 1 and turn + 1 (or dies there), and no other tile changes | not executed | WatorProperties.SharkStuckAsWritten | WatorProperties.SharkStuckFixed |
| wator.cpp:262 | the stuck shark's copy is written unflagged over a neighbouring shark, even one that has already moved this tick. That shark is destroyed, and its tile is processed a second time in the same tick | a 3 x 3 grid of flagged sharks, except an unflagged shark M at (1, 0), Ocean at (1, 1) and an unflagged shark P at (0, 1); draws 0, then 2. M moves south to (1, 1) and is flagged. P is stuck, its last scanned slot is E = (1, 1), and its copy replaces M. The visit of (1, 1) then moves the copy with a third draw | the step of one shark or fish leaves every tile that holds another shark unchanged | not executed | WatorProperties.StuckCopyOverwritesMover | WatorProperties.FixedStepSparesSharks |

`SharkStep` (used by `Tick` and `MoveShark`) keeps the behaviour as written,
because `moveCreatures` calls the code as written. `SharkStepFixed` is the
corrected step. `SharkFixAgrees` shows that it differs from the written one
only in the stuck case. `SharkStepStamped` and `SharkStepHealthy` prove both
steps keep the generation invariants. `FixedStepSparesSharks` and
`FishStepSparesSharks` show that with the correction no step overwrites a
shark other than the one moving.
