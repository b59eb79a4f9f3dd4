/** The engine of gamelogics.js, the "hybrid" variant: all state lives on a
    single `game` object, modelled as one HybridGame object. The tile height
    is the fixed 150; the reference line position, the frame timestamp and
    the random column draw are parameters of the operations that use them. */
module HybridTiles {
  import opened Board

  const TILE_HEIGHT: nat := 150
  const SPAWN_INTERVAL: real := 500.0
  const HIT_DETECTION_RANGE: real := 200.0
  /** Vertical room a column needs before it takes a new tile: 150 * 1.2. */
  const MIN_GAP: real := 180.0
  /** Speed of a fresh page and of every new game; also what a falsy speed
      is read as. */
  const RESET_SPEED: real := 2.0
  /** A hit raises the speed by this step, up to SPEED_CAP. */
  const SPEED_STEP: real := 0.01
  const SPEED_CAP: real := 8.0
  /** The frame advance divides the frame time by this. */
  const FRAME_DIVISOR: real := 16.0
  /** startGame's four staggered spawns start at -200 - i * 200. */
  const OPENING_STARTS: seq<real> := [-200.0, -400.0, -600.0, -800.0]

  /** `game.speed || 2`: a zero speed is read as 2. */
  function SpeedOrDefault(speed: real): (r: real)
    ensures r != 0.0
    ensures speed != 0.0 ==> r == speed
    ensures speed == 0.0 ==> r == RESET_SPEED
  {
    if speed == 0.0 then RESET_SPEED else speed
  }

  /** `now - (game._lastTime || now)`: the first frame after the loop was
      stopped (no previous timestamp, kept as 0) counts as zero time. */
  function FrameDelta(now: real, lastTime: real): real
  {
    now - (if lastTime == 0.0 then now else lastTime)
  }

  /** How far the tiles fall in a frame of `delta` ms: speed * (delta / 16). */
  function FallDistance(speed: real, delta: real): real
  {
    SpeedOrDefault(speed) * (delta / FRAME_DIVISOR)
  }

  /** The frame spawns when more than 500 / speed ms have passed since the
      last spawn. */
  predicate SpawnDue(now: real, lastSpawn: real, speed: real)
  {
    now - lastSpawn > SPAWN_INTERVAL / SpeedOrDefault(speed)
  }

  /** A column counts as safe when it is empty (its lowest y is minus
      infinity, which is below 0), when its lowest tile is still above the
      board, or when its lowest tile is more than MIN_GAP down. */
  predicate ColumnSafe(lowest: Option<real>)
  {
    lowest.None? || lowest.value < 0.0 || lowest.value > MIN_GAP
  }

  /** The safe columns among the first `n`, in ascending order. */
  function SafeColsUpTo(lastYs: seq<Option<real>>, n: nat): seq<int>
    requires n <= |lastYs|
  {
    if n == 0 then []
    else SafeColsUpTo(lastYs, n - 1) + (if ColumnSafe(lastYs[n - 1]) then [n - 1] else [])
  }

  lemma {:induction false} SafeColsUpToSpec(lastYs: seq<Option<real>>, n: nat)
    requires n <= |lastYs|
    ensures forall c :: c in SafeColsUpTo(lastYs, n) <==> 0 <= c < n && ColumnSafe(lastYs[c])
    ensures forall i, j :: 0 <= i < j < |SafeColsUpTo(lastYs, n)| ==>
      SafeColsUpTo(lastYs, n)[i] < SafeColsUpTo(lastYs, n)[j]
  {
    if n > 0 {
      SafeColsUpToSpec(lastYs, n - 1);
      var prev := SafeColsUpTo(lastYs, n - 1);
      forall i | 0 <= i < |prev|
        ensures prev[i] < n - 1
      {
        assert prev[i] in prev;
      }
    }
  }

  /** The columns spawnTile may choose from. */
  function SafeColumns(ts: seq<Tile>): seq<int>
  {
    SafeColsUpTo(LowestYs(ts), NUM_COLS)
  }

  /** A column is offered iff it is empty, its lowest tile is above the
      board, or its lowest tile is more than MIN_GAP down; the offer is in
      ascending column order. */
  lemma SafeColumnsSpec(ts: seq<Tile>)
    ensures forall c :: c in SafeColumns(ts) <==> 0 <= c < NUM_COLS && ColumnSafe(ColumnLowest(ts, c))
    ensures forall i, j :: 0 <= i < j < |SafeColumns(ts)| ==> SafeColumns(ts)[i] < SafeColumns(ts)[j]
  {
    SafeColsUpToSpec(LowestYs(ts), NUM_COLS);
  }

  /** Column `c` holds a tile that has entered the board, and none of its
      tiles is more than MIN_GAP down. */
  ghost predicate ColumnBlocked(ts: seq<Tile>, c: int)
  {
    && (exists k :: 0 <= k < |ts| && ts[k].col == c && ts[k].y >= 0.0)
    && (forall k :: 0 <= k < |ts| && ts[k].col == c ==> ts[k].y <= MIN_GAP)
  }

  /** How a spawn attempt ends. With a safe column the attempt reaches
      `game.board.appendChild`, and `game` has no `board`, so it throws
      after choosing `col` and before any tile is stored. */
  datatype SpawnOutcome = NoSafeColumn | Threw(col: int)

  /** The outcome of spawnTile on tile list `ts` with random draw `pick`. */
  function SpawnOutcomeOf(ts: seq<Tile>, pick: nat): SpawnOutcome
  {
    var safe := SafeColumns(ts);
    if safe == [] then NoSafeColumn else Threw(safe[pick % |safe|])
  }

  /** A spawn returns quietly exactly when every column has a tile on the
      board and no tile more than MIN_GAP down; otherwise it throws after choosing a
      safe column. */
  lemma SpawnOutcomeSpec(ts: seq<Tile>, pick: nat)
    ensures SpawnOutcomeOf(ts, pick).NoSafeColumn? <==>
      forall c :: 0 <= c < NUM_COLS ==> ColumnBlocked(ts, c)
    ensures SpawnOutcomeOf(ts, pick).Threw? ==>
      && 0 <= SpawnOutcomeOf(ts, pick).col < NUM_COLS
      && ColumnSafe(ColumnLowest(ts, SpawnOutcomeOf(ts, pick).col))
  {
    var safe := SafeColumns(ts);
    SafeColumnsSpec(ts);
    forall c | 0 <= c < NUM_COLS
      ensures c !in safe <==> ColumnBlocked(ts, c)
    {
      ColumnLowestSpec(ts, c);
    }
    if safe != [] {
      assert safe[0] in safe;
      assert !ColumnBlocked(ts, safe[0]);
      assert safe[pick % |safe|] in safe;
    }
  }

  /** On an empty board every column is safe, so every spawn throws, in the
      column the draw selects. */
  lemma SpawnOnEmptyBoard(pick: nat)
    ensures SpawnOutcomeOf([], pick) == Threw(pick % NUM_COLS)
  {
  }

  /** A column whose only tile is still above the board is offered: the
      test `lastY < 0` takes it for empty, although that tile occupies the
      spot where the new one would start. */
  lemma AboveBoardColumnIsSafe()
    ensures 0 in SafeColumns([Tile(1, 0, -100.0, false, false)])
  {
  }

  /** The single `game` object of gamelogics.js. */
  class HybridGame {
    var state: GameState
    var tiles: seq<Tile>
    var nextTileId: int
    var score: int
    var highScore: int
    var combo: int
    var bestCombo: int
    var lives: int
    var speed: real
    var lastSpawn: real
    /** `game._lastTime`; 0 stands for the null that stopLoop stores. */
    var lastTime: real
    /** A frame callback is scheduled (`rafId` names a live request). */
    var framePending: bool
    /** Delayed endGame calls scheduled and not yet run. */
    var endGameRequests: nat
    /** Delayed opening spawns not yet run, by their start position. */
    var spawnRequests: seq<real>

    ghost predicate Valid()
      reads this
    {
      && 0 <= combo <= bestCombo
      && 0 <= score
      && lives <= MAX_LIVES
      && RESET_SPEED <= speed <= SPEED_CAP
      && IdsAscending(tiles)
      && (forall k :: 0 <= k < |tiles| ==> tiles[k].id < nextTileId)
    }

    /** The state when the page loads; the high score comes from storage. */
    constructor (storedHighScore: int)
      ensures Valid()
      ensures state == Menu && tiles == [] && nextTileId == 1 && score == 0 && highScore == storedHighScore
      ensures combo == 0 && bestCombo == 0 && lives == MAX_LIVES && speed == RESET_SPEED
      ensures lastSpawn == 0.0 && lastTime == 0.0 && !framePending
      ensures endGameRequests == 0 && spawnRequests == []
    {
      state := Menu;
      tiles := [];
      nextTileId := 1;
      score := 0;
      highScore := storedHighScore;
      combo := 0;
      bestCombo := 0;
      lives := MAX_LIVES;
      speed := RESET_SPEED;
      lastSpawn := 0.0;
      lastTime := 0.0;
      framePending := false;
      endGameRequests := 0;
      spawnRequests := [];
    }

    /** A hit on tile `i` was scored, touching no other tile. */
    twostate predicate Scored(i: nat, lineY: real)
      reads this
    {
      && i < |old(tiles)|
      && tiles == old(tiles)[i := old(tiles)[i].(hit := true)]
      && score == old(score) + Points(Distance(old(tiles)[i], TILE_HEIGHT as real, lineY))
      && combo == old(combo) + 1
      && bestCombo == Max(old(bestCombo), combo)
      && speed == RMin(old(speed) + SPEED_STEP, SPEED_CAP)
      && lives == old(lives) && endGameRequests == old(endGameRequests)
    }

    /** One miss was recorded: the combo is broken, exactly one life is lost,
        and the end of the game is requested if no life is left. */
    twostate predicate MissRecorded()
      reads this
    {
      && combo == 0
      && lives == old(lives) - 1
      && endGameRequests == old(endGameRequests) + (if lives <= 0 then 1 else 0)
      && score == old(score) && bestCombo == old(bestCombo) && speed == old(speed)
    }

    /** spawnTile: collect the lowest y per column, then the safe columns,
        and choose one by the draw. Nothing is stored: with a safe column
        the attempt throws before `game.tiles.push`. */
    method SpawnTile(pick: nat) returns (outcome: SpawnOutcome)
      ensures outcome == SpawnOutcomeOf(tiles, pick)
    {
      var lastYs := LowestPerColumn(tiles);
      var safeCols: seq<int> := [];
      for c := 0 to NUM_COLS
        invariant safeCols == SafeColsUpTo(lastYs, c)
      {
        if ColumnSafe(lastYs[c]) {
          safeCols := safeCols + [c];
        }
      }
      if |safeCols| == 0 {
        return NoSafeColumn;
      }
      outcome := Threw(safeCols[pick % |safeCols|]);
    }

    /** The tile a tap on `tileId` scores: the first tile with that id, if it
        is live and within the hit range. */
    static function TapTarget(ts: seq<Tile>, tileId: int, lineY: real): (r: Option<nat>)
      ensures r.Some? ==>
        && r.value < |ts| && ts[r.value].id == tileId && Live(ts[r.value])
        && Distance(ts[r.value], TILE_HEIGHT as real, lineY) <= HIT_DETECTION_RANGE
      ensures IdsAscending(ts) ==>
        (r.None? <==> forall k :: 0 <= k < |ts| && ts[k].id == tileId ==>
          !(Live(ts[k]) && Distance(ts[k], TILE_HEIGHT as real, lineY) <= HIT_DETECTION_RANGE))
    {
      match IndexOfId(ts, tileId)
      case None => None
      case Some(i) =>
        if Live(ts[i]) && Distance(ts[i], TILE_HEIGHT as real, lineY) <= HIT_DETECTION_RANGE then Some(i) else None
    }

    /** handleTileClick: score a live tile near the line, else ignore the tap. */
    method HandleTileClick(tileId: int, lineY: real) returns (points: int)
      requires Valid()
      modifies this`tiles, this`score, this`combo, this`bestCombo, this`speed
      ensures Valid()
      ensures old(state) != Playing || TapTarget(old(tiles), tileId, lineY).None? ==>
        points == 0 && unchanged(this)
      ensures old(state) == Playing && TapTarget(old(tiles), tileId, lineY).Some? ==>
        var i := TapTarget(old(tiles), tileId, lineY).value;
        points == Points(Distance(old(tiles)[i], TILE_HEIGHT as real, lineY)) && Scored(i, lineY)
    {
      points := 0;
      if state != Playing {
        return;
      }
      var found := IndexOfId(tiles, tileId);
      if found.None? || !Live(tiles[found.value]) {
        return;
      }
      var i := found.value;
      var dist := Distance(tiles[i], TILE_HEIGHT as real, lineY);
      if dist > HIT_DETECTION_RANGE {
        return;
      }
      tiles := tiles[i := tiles[i].(hit := true)];
      points := Points(dist);
      score := score + points;
      combo := combo + 1;
      bestCombo := Max(bestCombo, combo);
      speed := RMin(speed + SPEED_STEP, SPEED_CAP);
    }

    /** handleEmptyClick: a tap with nothing to hit is a miss. */
    method HandleEmptyClick()
      requires Valid()
      modifies this`combo, this`lives, this`endGameRequests
      ensures Valid()
      ensures old(state) != Playing ==> unchanged(this)
      ensures old(state) == Playing ==> MissRecorded()
    {
      if state != Playing {
        return;
      }
      combo := 0;
      lives := lives - 1;
      if lives <= 0 {
        endGameRequests := endGameRequests + 1;
      }
    }

    /** markTileMiss: a live tile becomes missed and costs a miss; a tile
        already hit or missed is left alone. */
    method MarkTileMiss(i: nat)
      requires Valid() && i < |tiles|
      modifies this`tiles, this`combo, this`lives, this`endGameRequests
      ensures Valid()
      ensures !Live(old(tiles)[i]) ==> unchanged(this)
      ensures Live(old(tiles)[i]) ==>
        tiles == old(tiles)[i := old(tiles)[i].(missed := true)] && MissRecorded()
    {
      if !Live(tiles[i]) {
        return;
      }
      tiles := tiles[i := tiles[i].(missed := true)];
      combo := 0;
      lives := lives - 1;
      if lives <= 0 {
        endGameRequests := endGameRequests + 1;
      }
    }

    /** The frame's auto-miss pass over the tiles, in list order. */
    method MarkMissesPass(limit: real)
      requires Valid()
      modifies this`tiles, this`combo, this`lives, this`endGameRequests
      ensures Valid()
      ensures tiles == MarkMisses(old(tiles), limit)
      ensures lives == old(lives) - MissCount(old(tiles), limit)
      ensures combo == (if MissCount(old(tiles), limit) > 0 then 0 else old(combo))
      ensures endGameRequests == old(endGameRequests) + EndRequests(old(lives), MissCount(old(tiles), limit))
    {
      var i := 0;
      while i < |tiles|
        invariant Valid()
        invariant 0 <= i <= |tiles| == |old(tiles)|
        invariant forall k :: 0 <= k < i ==> tiles[k] == MarkIfPast(old(tiles)[k], limit)
        invariant forall k :: i <= k < |tiles| ==> tiles[k] == old(tiles)[k]
        invariant lives == old(lives) - MissCount(old(tiles)[..i], limit)
        invariant combo == (if MissCount(old(tiles)[..i], limit) > 0 then 0 else old(combo))
        invariant endGameRequests == old(endGameRequests) + EndRequests(old(lives), MissCount(old(tiles)[..i], limit))
      {
        assert old(tiles)[..i + 1][..i] == old(tiles)[..i];
        if PastLine(tiles[i], limit) {
          MarkTileMiss(i);
        }
        i := i + 1;
      }
      assert old(tiles)[..i] == old(tiles);
    }

    /** cleanupTiles: drop the tiles past the off-screen cutoff. */
    method CleanupTiles()
      requires Valid()
      modifies this`tiles
      ensures Valid()
      ensures tiles == Kept(old(tiles))
    {
      KeptIdsAscending(tiles);
      KeptMembers(tiles);
      tiles := Kept(tiles);
    }

    /** The frame's tile pass: move every tile by `dy`, mark the live
        tiles past `limit` as missed, then drop the tiles off screen. */
    method Settle(dy: real, limit: real)
      requires Valid()
      modifies this`tiles, this`combo, this`lives, this`endGameRequests
      ensures Valid()
      ensures
        var moved := Advanced(old(tiles), dy);
        var misses := MissCount(moved, limit);
        && tiles == Kept(MarkMisses(moved, limit))
        && lives == old(lives) - misses
        && combo == (if misses > 0 then 0 else old(combo))
        && endGameRequests == old(endGameRequests) + EndRequests(old(lives), misses)
    {
      tiles := AdvanceAll(tiles, dy);
      MarkMissesPass(limit);
      CleanupTiles();
    }

    /** The end of a frame in play: a due spawn is attempted; a throw ends
        the frame and with it the loop, before `lastSpawn` is updated;
        otherwise the next frame is requested. */
    method FinishFrame(now: real, pick: nat)
      modifies this`lastSpawn, this`framePending
      ensures
        if !SpawnDue(now, old(lastSpawn), speed) then
          framePending && lastSpawn == old(lastSpawn)
        else if SpawnOutcomeOf(tiles, pick).Threw? then
          !framePending && lastSpawn == old(lastSpawn)
        else
          framePending && lastSpawn == now
    {
      if now - lastSpawn > SPAWN_INTERVAL / SpeedOrDefault(speed) {
        var outcome := SpawnTile(pick);
        if outcome.Threw? {
          framePending := false;
          return;
        }
        lastSpawn := now;
      }
      framePending := true;
    }

    /** The body of the animation-frame loop. Out of play the loop ends.
        In play the tiles fall, misses are marked, the off-screen tiles go,
        and a due spawn is attempted; when that attempt throws, the
        exception leaves the frame before `lastSpawn` is updated and before
        the next frame is requested, so the loop ends. */
    method Step(now: real, lineY: real, pick: nat)
      requires Valid() && framePending
      modifies this`tiles, this`combo, this`lives, this`endGameRequests, this`lastTime,
        this`lastSpawn, this`framePending
      ensures Valid()
      ensures old(state) != Playing ==>
        && !framePending && tiles == old(tiles) && combo == old(combo) && lives == old(lives)
        && endGameRequests == old(endGameRequests) && lastTime == old(lastTime) && lastSpawn == old(lastSpawn)
      ensures old(state) == Playing ==>
        var moved := Advanced(old(tiles), FallDistance(old(speed), FrameDelta(now, old(lastTime))));
        var limit := lineY + MISS_MARGIN;
        var misses := MissCount(moved, limit);
        && lastTime == now
        && tiles == Kept(MarkMisses(moved, limit))
        && lives == old(lives) - misses
        && combo == (if misses > 0 then 0 else old(combo))
        && endGameRequests == old(endGameRequests) + EndRequests(old(lives), misses)
        && if !SpawnDue(now, old(lastSpawn), old(speed)) then
             framePending && lastSpawn == old(lastSpawn)
           else if SpawnOutcomeOf(tiles, pick).Threw? then
             !framePending && lastSpawn == old(lastSpawn)
           else
             framePending && lastSpawn == now
    {
      if state != Playing {
        framePending := false;
        return;
      }
      var dy := FallDistance(speed, FrameDelta(now, lastTime));
      lastTime := now;
      Settle(dy, lineY + MISS_MARGIN);
      FinishFrame(now, pick);
    }

    /** A tap in column `c` (pointer or key): the first live tile of the
        column strictly within the hit range is scored; with none, the tap
        is a miss. Out of play nothing happens. */
    method ColumnTap(c: int, lineY: real) returns (target: Option<nat>)
      requires Valid()
      modifies this`tiles, this`score, this`combo, this`bestCombo, this`speed, this`lives, this`endGameRequests
      ensures Valid()
      ensures old(state) != Playing ==> target.None? && unchanged(this)
      ensures old(state) == Playing ==>
        target == FirstHittable(old(tiles), c, TILE_HEIGHT as real, lineY, HIT_DETECTION_RANGE)
      ensures old(state) == Playing && target.Some? ==> Scored(target.value, lineY)
      ensures old(state) == Playing && target.None? ==> tiles == old(tiles) && MissRecorded()
    {
      target := None;
      if state != Playing {
        return;
      }
      target := FirstHittable(tiles, c, TILE_HEIGHT as real, lineY, HIT_DETECTION_RANGE);
      if target.None? {
        HandleEmptyClick();
      } else {
        IndexOfOwnId(tiles, target.value);
        var _ := HandleTileClick(tiles[target.value].id, lineY);
      }
    }

    /** A key press: keys 1-4 and a, s, d, f tap columns 0-3; other keys
        and key presses out of play are ignored. */
    method KeyTap(key: string, lineY: real) returns (target: Option<nat>)
      requires Valid()
      modifies this`tiles, this`score, this`combo, this`bestCombo, this`speed, this`lives, this`endGameRequests
      ensures Valid()
      ensures old(state) != Playing || KeyColumn(key).None? ==> target.None? && unchanged(this)
      ensures old(state) == Playing && KeyColumn(key).Some? ==>
        target == FirstHittable(old(tiles), KeyColumn(key).value, TILE_HEIGHT as real, lineY, HIT_DETECTION_RANGE)
      ensures old(state) == Playing && KeyColumn(key).Some? && target.Some? ==> Scored(target.value, lineY)
      ensures old(state) == Playing && KeyColumn(key).Some? && target.None? ==>
        tiles == old(tiles) && MissRecorded()
    {
      target := None;
      if state != Playing {
        return;
      }
      var col := KeyColumn(key);
      if col.None? {
        return;
      }
      target := ColumnTap(col.value, lineY);
    }

    /** stopLoop: cancel the pending frame and forget the last timestamp. */
    method StopLoop()
      modifies this`framePending, this`lastTime
      ensures !framePending && lastTime == 0.0
    {
      framePending := false;
      lastTime := 0.0;
    }

    /** startLoop: restart the frame loop and enter play; the first frame
        will count as zero time. */
    method StartLoop(now: real)
      requires Valid()
      modifies this`state, this`framePending, this`lastTime, this`lastSpawn
      ensures Valid()
      ensures state == Playing && framePending && lastTime == 0.0 && lastSpawn == now
    {
      StopLoop();
      lastSpawn := now;
      state := Playing;
      framePending := true;
    }

    /** The start positions of startGame's four staggered spawn timers,
        -200 - i * 200 for i = 0..3. */
    static method OpeningRequests() returns (opening: seq<real>)
      ensures opening == OPENING_STARTS
    {
      opening := [];
      var i := 0;
      while i < 4
        invariant 0 <= i <= 4
        invariant opening == OPENING_STARTS[..i]
      {
        opening := opening + [(-200 - i * 200) as real];
        i := i + 1;
      }
    }

    /** startGame: stop the loop, reset the session, record the four
        staggered opening spawns and start the loop at `now`. Pending
        delayed calls of an earlier session are not cancelled. */
    method StartGame(now: real)
      requires Valid()
      modifies this`tiles, this`nextTileId, this`state, this`score, this`combo, this`bestCombo,
        this`lives, this`speed, this`spawnRequests, this`framePending, this`lastTime, this`lastSpawn
      ensures Valid()
      ensures tiles == [] && nextTileId == 1 && state == Playing
      ensures score == 0 && combo == 0 && bestCombo == 0 && lives == MAX_LIVES && speed == RESET_SPEED
      ensures spawnRequests == old(spawnRequests) + OPENING_STARTS
      ensures framePending && lastTime == 0.0 && lastSpawn == now
    {
      var opening := OpeningRequests();
      StopLoop();
      tiles := [];
      nextTileId := 1;
      score := 0;
      combo := 0;
      bestCombo := 0;
      lives := MAX_LIVES;
      speed := RESET_SPEED;
      spawnRequests := spawnRequests + opening;
      StartLoop(now);
    }

    /** Pending opening spawn `j` runs: spawnTile at its start position.
        Its exception ends only that timer callback, so nothing but the
        pending set changes. Which pending timer fires next is the caller's
        choice. */
    method RunSpawnRequest(j: nat, pick: nat) returns (outcome: SpawnOutcome)
      requires j < |spawnRequests|
      modifies this`spawnRequests
      ensures spawnRequests == old(spawnRequests)[..j] + old(spawnRequests)[j + 1..]
      ensures outcome == SpawnOutcomeOf(tiles, pick)
    {
      spawnRequests := spawnRequests[..j] + spawnRequests[j + 1..];
      outcome := SpawnTile(pick);
    }

    /** endGame: stop the loop, enter game over, keep the better score. */
    method EndGame()
      requires Valid()
      modifies this`framePending, this`lastTime, this`state, this`highScore
      ensures Valid()
      ensures !framePending && lastTime == 0.0 && state == GameOver
      ensures highScore == NewHighScore(score, old(highScore))
    {
      StopLoop();
      state := GameOver;
      if score > highScore {
        highScore := score;
      }
    }

    /** A pending delayed endGame call runs. */
    method RunEndGameRequest()
      requires Valid() && endGameRequests > 0
      modifies this`endGameRequests, this`framePending, this`lastTime, this`state, this`highScore
      ensures Valid()
      ensures endGameRequests == old(endGameRequests) - 1
      ensures !framePending && lastTime == 0.0 && state == GameOver
      ensures highScore == NewHighScore(score, old(highScore))
    {
      endGameRequests := endGameRequests - 1;
      EndGame();
    }

    /** The debug clearAll: stop the loop and reset tiles, ids, score, lives
        and the state; combo, best combo, speed and high score are kept. */
    method ClearAll()
      requires Valid()
      modifies this`framePending, this`lastTime, this`tiles, this`nextTileId, this`score, this`lives, this`state
      ensures Valid()
      ensures !framePending && lastTime == 0.0
      ensures tiles == [] && nextTileId == 1 && score == 0 && lives == MAX_LIVES && state == Menu
      ensures combo == old(combo) && bestCombo == old(bestCombo) && speed == old(speed) && highScore == old(highScore)
    {
      StopLoop();
      tiles := [];
      nextTileId := 1;
      score := 0;
      lives := MAX_LIVES;
      state := Menu;
    }
  }
}
