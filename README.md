# Piano tiles engine — a verified Dafny model

The repository ships two variants of one browser piano-tiles game.
`gamelogic.js` keeps its state in closure variables. `gamelogics.js`, the
"hybrid" variant, keeps it on a single `game` object. In both, tiles fall
down four columns. A frame loop moves them, marks the ones that slip past
the reference line as missed, drops the ones that leave the board and
spawns new ones in "safe" columns. Taps and keys score the tile near the
line (10/5/3/1 points by distance) or cost a life. Three misses end the
game, and the high score is kept.

The model has three modules:

- `Board` (`board.dfy`) holds the logic both files contain:
  - the tile record and the scoring tiers;
  - the high-score rule and the key map;
  - the list transformations of a frame: advance, auto-miss, off-screen
    cleanup, and the lowest tile of each column;
  - the tap lookups.

  Two parts of it belong to one file only. The closest-tile column lookup
  (`PickClosest`, `IsClosest`, `ClosestUnique`) is in `gamelogic.js` alone
  (lines 928-941); `gamelogics.js` takes the first hittable tile of the
  column (`FirstHittable`, line 620). The tile record (id, column, y, hit,
  missed) is the tile `gamelogic.js` builds and the shape the handlers of
  `gamelogics.js` read; the object `gamelogics.js` would push in spawnTile
  (lines 241-246) has no id and no missed flag, but that push is never
  reached. Rounding is not in `Board`: only `gamelogic.js` calls
  `Math.round` (lines 336 and 704), so `RoundHalfUp` is in `PianoTiles`;
  `gamelogics.js` uses the unrounded gap 180 (line 204).
- `PianoTiles` (`gamelogic.dfy`) is `gamelogic.js`. Its class `Game` holds
  the closure variables, with its own constants:
  - minimum gap `max(round(1.25·h), 1)`;
  - hit range 260;
  - speed capped at 1 and reset to 1;
  - advance `speed·delta/3`.
- `HybridTiles` (`gamelogics.dfy`) is `gamelogics.js`. Its class
  `HybridGame` is the `game` object, with its own constants:
  - minimum gap 180;
  - hit range 200;
  - speed capped at 8 and reset to 2;
  - advance `(speed || 2)·delta/16`.

The tile height, the reference line position, the frame timestamp and the
random column draw are parameters of the operations that use them. In
`gamelogic.js` the tile height is re-measured at run time; in
`gamelogics.js` it is the constant 150. The random draw is a number
`pick`, and the chosen column is `safe[pick % |safe|]`.

`setTimeout(endGame, 300)` is recorded as a pending request
(`endGameRequests`). The four staggered opening spawns of `startGame` are
recorded as a queue of positions (`spawnRequests`). `RunEndGameRequest` and
`RunSpawnRequest` perform one of them. Whether a frame callback is
scheduled is the flag `framePending`.

The model keeps these behaviours of the code as they are:

- **Overlap in `gamelogic.js`.** The spawn tests only the lowest tile of a
  column. A column whose old tile is far down therefore takes a new tile
  even while another tile has just entered at its top. The two can overlap
  exactly (`SpawnCanOverlap`).
- **Repeated end-of-game requests.** Every miss that leaves `lives <= 0`
  schedules another `endGame`. Two misses in one frame with one life left
  schedule two (`EndRequestedTwice`). `startGame` does not cancel them.
- **The frame loop of `gamelogic.js` ignores the game state.** Only
  `endGame` stops it.
- **A column above the board counts as free in `gamelogics.js`.** The safety
  test is `lastY < 0 || lastY > 180`, so a column whose lowest tile is still
  above the board is taken as safe (`AboveBoardColumnIsSafe`).
- **No tile is ever stored in `gamelogics.js`.** When a safe column exists,
  `spawnTile` calls `game.board.appendChild`, and the `game` object has no
  `board`. The call throws before `game.tiles.push`. The board starts empty
  and no tile is ever added, so every spawn attempt throws
  (`SpawnOnEmptyBoard`). In a timer callback the exception only ends that
  callback. In the frame it leaves before `lastSpawn` is updated and before
  the next frame is requested, so the first due spawn ends the frame loop
  while the state stays "playing" (`HybridTiles.HybridGame.Step`).

## Model

| member | source | states |
|---|---|---|
| Board.PointsBands | gamelogic.js:445-461 | a hit scores 10 iff distance < 20, 5 iff 20 ≤ d < 40, 3 iff 40 ≤ d < 60 (`PERFECT_ZONE`), 1 otherwise; the same table is at gamelogics.js:317-325 |
| Board.PointsMonotone | gamelogic.js:445-461 | points never increase as the distance grows |
| Board.NewHighScoreSpec | gamelogic.js:745-748 | the high score changes iff the score beats it, never decreases, is at least the score, and a second `endGame` leaves it unchanged |
| Board.EndRequestsClosedForm | gamelogic.js:496-507 | from `lives`, `m` misses in a row request `endGame` m times if lives ≤ 0, never if m < lives, else m − lives + 1 times |
| Board.EndRequestedIff | gamelogic.js:487 | some end-of-game request is made iff there is a miss and the misses bring the lives to 0 or below |
| Board.EndRequestedTwice | gamelogic.js:506 | with one life left, two misses request `endGame` twice: there is no guard against repeats |
| Board.AdvanceAll | gamelogic.js:605 | the loop moves every tile down by dy and changes nothing else about it |
| Board.MarkMissesSpec | gamelogic.js:611-615 | the auto-miss pass marks exactly the live tiles past the limit (only their `missed` flag changes), leaves no live tile past it, and a second pass marks nothing |
| Board.KeptMembers | gamelogic.js:412-421 | cleanup keeps exactly the tiles with y ≤ 900 and never grows the list |
| Board.KeptConcat | gamelogic.js:412-421 | cleanup filters element by element, keeping the relative order: it distributes over concatenation |
| Board.KeptIdempotent | gamelogic.js:412-421 | a second cleanup removes nothing |
| Board.KeptIdsAscending | gamelogic.js:412-421 | cleanup keeps the ids in increasing order |
| Board.ColumnLowestSpec | gamelogic.js:339-344 | the per-column value is minus infinity iff the column holds no tile, else the largest y of the column's tiles |
| Board.LowestPerColumn | gamelogic.js:339-344 | the loop over the tiles fills the four slots with each column's lowest tile, skipping tiles outside the columns; the same loop is at gamelogics.js:207-213 |
| Board.KeyColumnSpec | gamelogic.js:815-816 | keys 1-4 and a, s, d, f select columns 0-3, and no other key selects a column; the same map is at gamelogics.js:590 |
| Board.IndexOfId | gamelogic.js:431 | `find` by id gives the first tile with that id, or nothing iff no tile has it |
| Board.IndexOfOwnId | gamelogic.js:355 | with ids increasing along the list, looking a tile up by its own id finds that tile |
| Board.FirstHittable | gamelogic.js:821-827 | the key lookup gives the first live tile of the column strictly within the range, or nothing iff there is none |
| Board.ClosestUnique | gamelogic.js:936-940 | at most one candidate is nearest to the line with ties going to the earliest |
| Board.PickClosest | gamelogic.js:928-941 | the column lookup finds no tile iff the column has no live tile, else the nearest one, ties going to the earlier tile in the list |
| PianoTiles.RoundHalfUp | gamelogic.js:336 | `Math.round` gives the integer within half a unit of its argument, halves going up |
| PianoTiles.NextThemeCycle | gamelogic.js:772-777 | the theme cycle moves to another theme and returns after three clicks |
| PianoTiles.MinGapSpec | gamelogic.js:336 | the minimum gap is round(1.25·h), at least 1, and 188 for h = 150 |
| PianoTiles.SafeColsUpToSpec | gamelogic.js:347-349 | the safe-column list holds exactly the columns that are empty or whose lowest tile is below the gap, in increasing order |
| PianoTiles.SafeColumnsSpec | gamelogic.js:336-349 | a column is offered iff it holds no tile or its lowest tile is more than the gap down, and the offer is in increasing order |
| PianoTiles.NoSafeColumnIff | gamelogic.js:336-351 | no column is offered iff every column holds a tile and none of its tiles is more than the gap down |
| PianoTiles.SpawnIntoSpec | gamelogic.js:335-365 | with no safe column the tiles and next id are unchanged; otherwise exactly one tile is appended, keeping the old ones: live, with the old next id, at initialY, in a safe column, and the next id grows by 1 |
| PianoTiles.SpawnReachesEverySafeColumn | gamelogic.js:353 | every safe column is chosen by some draw |
| PianoTiles.SpawnCanOverlap | gamelogic.js:339-349 | a column whose lowest tile is far down takes a new tile exactly on top of a tile that has just entered |
| PianoTiles.OpeningOffsetsSpec | gamelogic.js:703-706 | the four opening tiles start one spacing apart, and the spacing round(1.5·h) is at least one tile height |
| PianoTiles.Game.constructor | gamelogic.js:21-32 | the page starts in the menu with score 0, 3 lives, speed 3, no tiles, next id 1, and the stored high score |
| PianoTiles.Game.TapTarget | gamelogic.js:431-438 | the tile a tap scores has the tapped id, is live and is within 260 of the line; with ascending ids, the tap scores nothing exactly when no tile with that id is live and within 260 |
| PianoTiles.Game.HandleTileClick | gamelogic.js:428-472 | out of play, or when the id is unknown, the tile is hit or missed, or it is farther than 260, nothing changes; otherwise exactly that tile is marked hit, its tier's points are added, combo + 1, best combo = max, and speed = min(speed + 0.01, 1) |
| PianoTiles.Game.HandleEmptyClick | gamelogic.js:478-490 | out of play nothing changes; in play the combo becomes 0, exactly one life is lost, and `endGame` is requested if lives ≤ 0 |
| PianoTiles.Game.MarkTileMiss | gamelogic.js:496-507 | a hit or missed tile is left alone; a live tile becomes missed and the miss is recorded as for an empty tap |
| PianoTiles.Game.MarkMissesPass | gamelogic.js:611-615 | the pass marks the tiles as `MarkMisses` does, loses one life per marked tile, zeroes the combo if any was marked, and records one end request per miss at lives ≤ 0 |
| PianoTiles.Game.AdvanceTiles | gamelogic.js:605 | every tile moves down by dy |
| PianoTiles.Game.CleanupTiles | gamelogic.js:412-421 | the tile list becomes the kept tiles, preserving the invariant |
| PianoTiles.Game.SpawnTile | gamelogic.js:335-365 | the tiles and next id become the spawn result (see `SpawnIntoSpec`) |
| PianoTiles.Game.Settle | gamelogic.js:605-618 | advance, then auto-miss, then cleanup: the tiles, lives, combo and end requests after the three passes |
| PianoTiles.Game.Step | gamelogic.js:600-634 | one frame, run only while a frame is pending: delta = now − lastTime; tiles fall speed·delta/3, live tiles past line + 100 are missed, tiles past 900 go, then one spawn at −h iff now − lastSpawn > 500/max(0.1, speed), which sets lastSpawn = now |
| PianoTiles.Game.SpawnIfDue | gamelogic.js:621-624 | a spawn happens and lastSpawn becomes now iff the cadence is due; otherwise nothing changes |
| PianoTiles.Game.ColumnTap | gamelogic.js:917-949 | out of play nothing changes; else the nearest live tile of the column is scored if within 260, otherwise the tap is a miss and no tile changes |
| PianoTiles.Game.KeyTap | gamelogic.js:811-831 | out of play or for an unmapped key nothing changes; else the first live tile of the column strictly within 260 is scored, or the tap is a miss |
| PianoTiles.Game.OpeningRequests | gamelogic.js:703-706 | the loop produces the four opening offsets i·round(1.5·h) |
| PianoTiles.Game.StartLoop | gamelogic.js:592-598 | the loop restarts at now with lastSpawn = now and the state playing |
| PianoTiles.Game.StartGame | gamelogic.js:662-716 | no tiles, next id 1, score, combo and best combo 0, 3 lives, speed 1, playing, the four opening spawns queued, the loop started |
| PianoTiles.Game.RunSpawnRequest | gamelogic.js:705 | any one pending opening spawn, chosen by the caller, runs at −h − its offset with the tile height of that moment, and only that one leaves the pending list |
| PianoTiles.Game.EndGame | gamelogic.js:721-762 | the loop stops, the state is game over, and the high score is kept or beaten |
| PianoTiles.Game.RunEndGameRequest | gamelogic.js:487 | a delayed `endGame` runs and leaves the queue |
| PianoTiles.Game.OnThemeClick | gamelogic.js:772-782 | the theme moves to the next one; the theme player restarts iff playing with sound on |
| HybridTiles.SpeedOrDefault | gamelogics.js:403 | `speed \|\| 2` is never zero, is the speed itself when that is not zero, and is 2 when the speed is zero |
| HybridTiles.SafeColsUpToSpec | gamelogics.js:216-225 | the safe-column list holds exactly the columns with lastY < 0 or lastY > 180, in increasing order |
| HybridTiles.SafeColumnsSpec | gamelogics.js:204-225 | a column is offered iff it is empty, its lowest tile is above the board, or that tile is more than 180 down |
| HybridTiles.SpawnOutcomeSpec | gamelogics.js:203-250 | a spawn returns quietly iff every column has a tile on the board and none more than 180 down; otherwise it throws after choosing a safe column |
| HybridTiles.SpawnOnEmptyBoard | gamelogics.js:23-39 | on the empty board every column is safe, so every spawn throws (`game.board` is undefined), in column pick mod 4 |
| HybridTiles.AboveBoardColumnIsSafe | gamelogics.js:222 | a column whose only tile is still above the board is offered |
| HybridTiles.HybridGame.constructor | gamelogics.js:23-39 | the page starts in the menu with score 0, 3 lives, speed 2, no tiles, next id 1, and the stored high score |
| HybridTiles.HybridGame.SpawnTile | gamelogics.js:203-250 | the loops build the lowest tile per column and the safe columns; the attempt ends as `SpawnOutcomeOf` says, and nothing is stored |
| HybridTiles.HybridGame.TapTarget | gamelogics.js:305-311 | the tile a tap scores has the tapped id, is live and is within 200 of the line; with ascending ids, the tap scores nothing exactly when no tile with that id is live and within 200 |
| HybridTiles.HybridGame.HandleTileClick | gamelogics.js:304-334 | out of play, or when the id is unknown, the tile is hit or missed, or it is farther than 200, nothing changes; otherwise exactly that tile is hit, its tier's points are added, combo + 1, best combo = max, and speed = min(speed + 0.01, 8) |
| HybridTiles.HybridGame.HandleEmptyClick | gamelogics.js:336-344 | out of play nothing changes; in play the combo becomes 0, exactly one life is lost, and `endGame` is requested if lives ≤ 0 |
| HybridTiles.HybridGame.MarkTileMiss | gamelogics.js:346-354 | a hit or missed tile is left alone; a live tile becomes missed and the miss is recorded |
| HybridTiles.HybridGame.MarkMissesPass | gamelogics.js:407-409 | the pass marks the tiles as `MarkMisses` does, loses one life per marked tile, zeroes the combo if any was marked, and records one end request per miss at lives ≤ 0 |
| HybridTiles.HybridGame.CleanupTiles | gamelogics.js:283-294 | the tile list becomes the tiles with y ≤ 900, preserving the invariant |
| HybridTiles.HybridGame.Settle | gamelogics.js:403-411 | advance, then auto-miss, then cleanup: the tiles, lives, combo and end requests after the three passes |
| HybridTiles.HybridGame.FinishFrame | gamelogics.js:414-421 | when the cadence 500/speed is not due the next frame is requested; when due, a throwing spawn ends the loop with lastSpawn unchanged, and a quiet one sets lastSpawn = now and requests the next frame |
| HybridTiles.HybridGame.Step | gamelogics.js:397-422 | run only while a frame is pending; out of play the loop ends and nothing else changes; in play delta = now − (lastTime or now), tiles fall speed·delta/16, misses, cleanup, then the due spawn as in `FinishFrame` |
| HybridTiles.HybridGame.ColumnTap | gamelogics.js:617-623 | out of play nothing changes; else the first live tile of the column strictly within 200 is scored, or the tap is a miss and no tile changes |
| HybridTiles.HybridGame.KeyTap | gamelogics.js:588-599 | out of play or for an unmapped key nothing changes; else the key's column is tapped as a pointer tap would |
| HybridTiles.HybridGame.StopLoop | gamelogics.js:427-431 | no frame is pending and the last timestamp is forgotten |
| HybridTiles.HybridGame.StartLoop | gamelogics.js:392-395 | the loop restarts with lastSpawn = now, the state playing, and a first frame that counts as zero time |
| HybridTiles.HybridGame.OpeningRequests | gamelogics.js:476-478 | the loop produces the four opening positions −200 − i·200 |
| HybridTiles.HybridGame.StartGame | gamelogics.js:450-487 | no tiles, next id 1, score, combo and best combo 0, 3 lives, speed 2, playing, the four opening spawns queued, the loop started |
| HybridTiles.HybridGame.RunSpawnRequest | gamelogics.js:477 | any one pending opening spawn, chosen by the caller, runs; its outcome is that of `spawnTile`, and only that entry leaves the pending list |
| HybridTiles.HybridGame.EndGame | gamelogics.js:489-514 | the loop stops, the state is game over, and the high score is kept or beaten |
| HybridTiles.HybridGame.RunEndGameRequest | gamelogics.js:342 | a delayed `endGame` runs and leaves the queue |
| HybridTiles.HybridGame.ClearAll | gamelogics.js:673-685 | the loop stops; tiles, next id, score, lives and the state (menu) are reset; combo, best combo, speed and high score are kept |

## Left out

- DOM work is presentation only and is not modelled: tile elements, feedback pop-ups, the HUD, overlays, column layout and `resolveDOM`.
- Audio is not modelled: the audio context, beeps, tones, theme players and snippet playback. These are Web Audio calls with no game logic. `onToggleSound` only switches audio, so it is left out of both files. The theme button of `gamelogics.js` is outside the modelled core of that file.
- `measureTileHeight` and `perfectLineY` depend on the layout engine. The tile height (in `gamelogic.js`) and the reference line are parameters instead.
- `localStorage` is reduced to the `highScore` field and a constructor argument. The write in `endGame` is not modelled.
- Timing is not modelled. The time at which a frame or timer fires is left to the caller, who calls `Step`, `RunSpawnRequest` or `RunEndGameRequest` in any order. The caller also picks which pending opening spawn fires; the source fires them by due time (start + i·150 ms in both files), which the model does not track. The model does not fix how the pending spawns interleave with end-game requests or with frames. `rafId` is reduced to the flag `framePending`. `clearSpawnTimers`/`clearSpawnInterval` have no effect, because no interval timer is ever started.
- The random column choice is a parameter `pick`, and the column is `safe[pick % |safe|]`. `Math.floor(Math.random() * n)` only produces indexes below n, and this form reaches each of them (`SpawnReachesEverySafeColumn`).
- Floating point: speeds, positions and times are exact reals. The model does not reproduce IEEE rounding of the 0.01 speed step, of `delta/3` and `delta/16`, or of `150 * 1.2` (exactly 180 in doubles). NaN and infinite timestamps are outside the model.
- `game._lastTime` is null after `stopLoop`; the model stores 0 instead. Both are falsy, so `now - (game._lastTime || now)` reads them alike.
- The tile object that `gamelogics.js` would push lacks `id` and `missed`. It is never stored, because the append before it throws, so the model's tiles always carry both.
