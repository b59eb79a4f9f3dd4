/** The engine of gamelogic.js: a closure over mutable game variables,
    modelled as one Game object. The tile height (re-measured at run time),
    the reference line position, the frame timestamp and the random column
    draw are parameters of the operations that use them. */
module PianoTiles {
  import opened Board

  const SPAWN_INTERVAL: real := 500.0
  const HIT_DETECTION_RANGE: real := 260.0
  /** Speed a fresh page starts with, before the first game. */
  const INITIAL_SPEED: real := 3.0
  /** Speed every game starts with. */
  const START_SPEED: real := 1.0
  /** A hit raises the speed by this step, up to SPEED_CAP. */
  const SPEED_STEP: real := 0.01
  const SPEED_CAP: real := 1.0
  /** The spawn cadence divides by the speed, but never by less than this. */
  const MIN_SPEED_DIVISOR: real := 0.1

  datatype Theme = Arcade | Calm | SciFi

  /** The theme button's cycle Arcade -> Calm -> SciFi -> Arcade. */
  function NextTheme(t: Theme): Theme
  {
    match t
    case Arcade => Calm
    case Calm => SciFi
    case SciFi => Arcade
  }

  /** The cycle visits every theme and returns after three clicks. */
  lemma NextThemeCycle(t: Theme)
    ensures NextTheme(t) != t && NextTheme(NextTheme(t)) != t
    ensures NextTheme(NextTheme(NextTheme(t))) == t
  {
  }

  /** Math.round: the nearest integer, halves rounded up. */
  function RoundHalfUp(x: real): (r: int)
    ensures r as real - 0.5 <= x < r as real + 0.5
  {
    (x + 0.5).Floor
  }

  /** Minimum distance the lowest tile of a column must have fallen before
      the column takes another tile: max(round(1.25 * tileHeight), 1). */
  function MinGap(tileHeight: nat): int
  {
    Max(RoundHalfUp(1.25 * tileHeight as real), 1)
  }

  /** MinGap is 1.25 tile heights rounded half up, and at least 1. */
  lemma MinGapSpec(tileHeight: nat)
    ensures MinGap(tileHeight) >= 1
    ensures tileHeight > 0 ==>
      MinGap(tileHeight) as real - 0.5 <= 1.25 * tileHeight as real < MinGap(tileHeight) as real + 0.5
    ensures MinGap(150) == 188
  {
  }

  /** A column is safe when it is empty (its lowest y is minus infinity) or
      its lowest tile is more than the minimum gap down the board. */
  predicate ColumnSafe(lowest: Option<real>, minGap: int)
  {
    lowest.None? || lowest.value > minGap as real
  }

  /** The safe columns among the first `n`, in ascending order. */
  function SafeColsUpTo(lastYs: seq<Option<real>>, minGap: int, n: nat): seq<int>
    requires n <= |lastYs|
  {
    if n == 0 then []
    else SafeColsUpTo(lastYs, minGap, n - 1) + (if ColumnSafe(lastYs[n - 1], minGap) then [n - 1] else [])
  }

  lemma {:induction false} SafeColsUpToSpec(lastYs: seq<Option<real>>, minGap: int, n: nat)
    requires n <= |lastYs|
    ensures forall c :: c in SafeColsUpTo(lastYs, minGap, n) <==> 0 <= c < n && ColumnSafe(lastYs[c], minGap)
    ensures forall i, j :: 0 <= i < j < |SafeColsUpTo(lastYs, minGap, n)| ==>
      SafeColsUpTo(lastYs, minGap, n)[i] < SafeColsUpTo(lastYs, minGap, n)[j]
  {
    if n > 0 {
      SafeColsUpToSpec(lastYs, minGap, n - 1);
      var prev := SafeColsUpTo(lastYs, minGap, n - 1);
      forall i | 0 <= i < |prev|
        ensures prev[i] < n - 1
      {
        assert prev[i] in prev;
      }
    }
  }

  /** The columns spawnTile may choose from. */
  function SafeColumns(ts: seq<Tile>, tileHeight: nat): seq<int>
  {
    SafeColsUpTo(LowestYs(ts), MinGap(tileHeight), NUM_COLS)
  }

  /** A column is offered iff it is empty or its lowest tile has fallen
      past the minimum gap; the offer is in ascending column order. */
  lemma SafeColumnsSpec(ts: seq<Tile>, tileHeight: nat)
    ensures forall c :: c in SafeColumns(ts, tileHeight) <==>
      0 <= c < NUM_COLS && ColumnSafe(ColumnLowest(ts, c), MinGap(tileHeight))
    ensures forall i, j :: 0 <= i < j < |SafeColumns(ts, tileHeight)| ==>
      SafeColumns(ts, tileHeight)[i] < SafeColumns(ts, tileHeight)[j]
  {
    SafeColsUpToSpec(LowestYs(ts), MinGap(tileHeight), NUM_COLS);
  }

  /** Column `c` holds a tile, and none of its tiles is further down than
      `gap`. */
  ghost predicate ColumnBlocked(ts: seq<Tile>, c: int, gap: int)
  {
    && (exists k :: 0 <= k < |ts| && ts[k].col == c)
    && (forall k :: 0 <= k < |ts| && ts[k].col == c ==> ts[k].y <= gap as real)
  }

  /** Spawning is impossible exactly when every column holds a tile and no
      tile of any column is further down than the minimum gap. */
  lemma NoSafeColumnIff(ts: seq<Tile>, tileHeight: nat)
    ensures SafeColumns(ts, tileHeight) == [] <==>
      forall c :: 0 <= c < NUM_COLS ==> ColumnBlocked(ts, c, MinGap(tileHeight))
  {
    var g := MinGap(tileHeight);
    var safe := SafeColumns(ts, tileHeight);
    SafeColumnsSpec(ts, tileHeight);
    forall c | 0 <= c < NUM_COLS
      ensures c !in safe <==> ColumnBlocked(ts, c, g)
    {
      ColumnLowestSpec(ts, c);
    }
    if safe != [] {
      assert safe[0] in safe;
      assert !ColumnBlocked(ts, safe[0], g);
    }
  }

  /** The tile list and next id after one spawn attempt: with no safe column
      nothing changes; otherwise a live tile with the next id is appended in
      the safe column the random draw selects. */
  function SpawnInto(ts: seq<Tile>, nextId: int, tileHeight: nat, pick: nat, initialY: real): (seq<Tile>, int)
  {
    var safe := SafeColumns(ts, tileHeight);
    if safe == [] then (ts, nextId)
    else (ts + [Tile(nextId, safe[pick % |safe|], initialY, false, false)], nextId + 1)
  }

  /** What a spawn adds: at most one tile, keeping the old ones in place; the
      added tile is live, carries the old next id, starts at initialY, and its
      column was empty or had its lowest tile below the minimum gap. */
  lemma SpawnIntoSpec(ts: seq<Tile>, nextId: int, tileHeight: nat, pick: nat, initialY: real)
    ensures var (ts', nextId') := SpawnInto(ts, nextId, tileHeight, pick, initialY);
      if SafeColumns(ts, tileHeight) == [] then ts' == ts && nextId' == nextId
      else
        && |ts'| == |ts| + 1 && ts'[..|ts|] == ts && nextId' == nextId + 1
        && ts'[|ts|].id == nextId && ts'[|ts|].y == initialY && Live(ts'[|ts|])
        && 0 <= ts'[|ts|].col < NUM_COLS
        && ColumnSafe(ColumnLowest(ts, ts'[|ts|].col), MinGap(tileHeight))
  {
    var safe := SafeColumns(ts, tileHeight);
    SafeColumnsSpec(ts, tileHeight);
    if safe != [] {
      var c := safe[pick % |safe|];
      assert c in safe;
      ColumnLowestSpec(ts, c);
    }
  }

  /** The random draw can select every safe column. */
  lemma SpawnReachesEverySafeColumn(ts: seq<Tile>, nextId: int, tileHeight: nat, initialY: real, c: int)
    requires c in SafeColumns(ts, tileHeight)
    ensures exists pick: nat ::
      SpawnInto(ts, nextId, tileHeight, pick, initialY).0 == ts + [Tile(nextId, c, initialY, false, false)]
  {
    var safe := SafeColumns(ts, tileHeight);
    var i :| 0 <= i < |safe| && safe[i] == c;
    assert i % |safe| == i;
    assert SpawnInto(ts, nextId, tileHeight, i, initialY).0 == ts + [Tile(nextId, c, initialY, false, false)];
  }

  /** The safety test looks only at the lowest tile of a column, so a column
      whose old tile is far down still takes a new tile even when another
      tile has just entered at the top: here the new tile lands exactly on
      tile 2. */
  lemma SpawnCanOverlap()
    ensures var ts := [Tile(1, 0, 500.0, false, false), Tile(2, 0, -150.0, false, false)];
      var ts' := SpawnInto(ts, 3, 150, 0, -150.0).0;
      |ts'| == 3 && ts'[2].col == ts[1].col && ts'[2].y == ts[1].y
  {
  }

  /** How far the tiles fall in a frame of `delta` ms: speed * (delta / 3). */
  function FallDistance(speed: real, delta: real): real
  {
    speed * (delta / 3.0)
  }

  /** The frame spawns when more than 500 / max(0.1, speed) ms have passed
      since the last spawn. */
  predicate SpawnDue(now: real, lastSpawn: real, speed: real)
  {
    now - lastSpawn > SPAWN_INTERVAL / RMax(MIN_SPEED_DIVISOR, speed)
  }

  /** Spacing of the staggered opening spawns: round(1.5 * tileHeight). */
  function StaggerSpacing(tileHeight: nat): int
  {
    RoundHalfUp(1.5 * tileHeight as real)
  }

  /** Offsets above -tileHeight at which the four opening tiles start. */
  function OpeningOffsets(tileHeight: nat): seq<int>
  {
    var s := StaggerSpacing(tileHeight);
    [0, s, 2 * s, 3 * s]
  }

  /** The opening tiles start successively higher up, one spacing apart, and
      the spacing is at least one tile height. */
  lemma OpeningOffsetsSpec(tileHeight: nat)
    ensures |OpeningOffsets(tileHeight)| == 4
    ensures StaggerSpacing(tileHeight) >= tileHeight
    ensures forall i :: 0 < i < 4 ==>
      OpeningOffsets(tileHeight)[i] == OpeningOffsets(tileHeight)[i - 1] + StaggerSpacing(tileHeight)
  {
  }

  class Game {
    var gameState: GameState
    var score: int
    var highScore: int
    var combo: int
    var bestCombo: int
    var lives: int
    var speed: real
    var tiles: seq<Tile>
    var nextTileId: int
    var lastSpawn: real
    /** Timestamp of the previous frame (startLoop's closure variable). */
    var lastTime: real
    /** A frame callback is scheduled. */
    var framePending: bool
    /** Delayed endGame calls scheduled and not yet run. */
    var endGameRequests: nat
    /** Delayed opening spawns not yet run, by their offset. */
    var spawnRequests: seq<int>
    var activeTheme: Theme

    ghost predicate Valid()
      reads this
    {
      && 0 <= combo <= bestCombo
      && 0 <= score
      && lives <= MAX_LIVES
      && IdsAscending(tiles)
      && (forall k :: 0 <= k < |tiles| ==> tiles[k].id < nextTileId)
      && (forall k :: 0 <= k < |tiles| ==> 0 <= tiles[k].col < NUM_COLS)
      && (gameState == Playing ==> speed == START_SPEED)
    }

    /** The state when the page loads; the high score comes from storage. */
    constructor (storedHighScore: int)
      ensures Valid()
      ensures gameState == Menu && score == 0 && highScore == storedHighScore
      ensures combo == 0 && bestCombo == 0 && lives == MAX_LIVES && speed == INITIAL_SPEED
      ensures tiles == [] && nextTileId == 1 && lastSpawn == 0.0 && lastTime == 0.0
      ensures !framePending && endGameRequests == 0 && spawnRequests == [] && activeTheme == Arcade
    {
      gameState := Menu;
      score := 0;
      highScore := storedHighScore;
      combo := 0;
      bestCombo := 0;
      lives := MAX_LIVES;
      speed := INITIAL_SPEED;
      tiles := [];
      nextTileId := 1;
      lastSpawn := 0.0;
      lastTime := 0.0;
      framePending := false;
      endGameRequests := 0;
      spawnRequests := [];
      activeTheme := Arcade;
    }

    /** A hit on tile `i` was scored, touching no other tile. */
    twostate predicate Scored(i: nat, tileHeight: nat, lineY: real)
      reads this
    {
      && i < |old(tiles)|
      && tiles == old(tiles)[i := old(tiles)[i].(hit := true)]
      && score == old(score) + Points(Distance(old(tiles)[i], tileHeight as real, lineY))
      && combo == old(combo) + 1
      && bestCombo == Max(old(bestCombo), combo)
      && speed == RMin(old(speed) + SPEED_STEP, SPEED_CAP)
      && lives == old(lives) && endGameRequests == old(endGameRequests)
    }

    /** One miss was recorded: the combo is broken, exactly one life is lost,
        and the end of the game is requested if no life is left. */
    twostate predicate MissRecorded()
      reads this
    {
      && combo == 0
      && lives == old(lives) - 1
      && endGameRequests == old(endGameRequests) + (if lives <= 0 then 1 else 0)
      && score == old(score) && bestCombo == old(bestCombo) && speed == old(speed)
    }

    /** The tile a tap on `tileId` scores: the first tile with that id, if it
        is live and within the hit range. */
    static function TapTarget(ts: seq<Tile>, tileId: int, tileHeight: nat, lineY: real): (r: Option<nat>)
      ensures r.Some? ==>
        && r.value < |ts| && ts[r.value].id == tileId && Live(ts[r.value])
        && Distance(ts[r.value], tileHeight as real, lineY) <= HIT_DETECTION_RANGE
      ensures IdsAscending(ts) ==>
        (r.None? <==> forall k :: 0 <= k < |ts| && ts[k].id == tileId ==>
          !(Live(ts[k]) && Distance(ts[k], tileHeight as real, lineY) <= HIT_DETECTION_RANGE))
    {
      match IndexOfId(ts, tileId)
      case None => None
      case Some(i) =>
        if Live(ts[i]) && Distance(ts[i], tileHeight as real, lineY) <= HIT_DETECTION_RANGE then Some(i) else None
    }

    /** handleTileClick: score a live tile near the line, else ignore the tap. */
    method HandleTileClick(tileId: int, lineY: real, tileHeight: nat) returns (points: int)
      requires Valid()
      modifies this`tiles, this`score, this`combo, this`bestCombo, this`speed
      ensures Valid()
      ensures old(gameState) != Playing || TapTarget(old(tiles), tileId, tileHeight, lineY).None? ==>
        points == 0 && unchanged(this)
      ensures old(gameState) == Playing && TapTarget(old(tiles), tileId, tileHeight, lineY).Some? ==>
        var i := TapTarget(old(tiles), tileId, tileHeight, lineY).value;
        points == Points(Distance(old(tiles)[i], tileHeight as real, lineY)) && Scored(i, tileHeight, lineY)
    {
      points := 0;
      if gameState != Playing {
        return;
      }
      var found := IndexOfId(tiles, tileId);
      if found.None? || !Live(tiles[found.value]) {
        return;
      }
      var i := found.value;
      var dist := Distance(tiles[i], tileHeight as real, lineY);
      if dist > HIT_DETECTION_RANGE {
        return;
      }
      tiles := tiles[i := tiles[i].(hit := true)];
      points := Points(dist);
      score := score + points;
      combo := combo + 1;
      bestCombo := Max(bestCombo, combo);
      speed := RMin(speed + SPEED_STEP, SPEED_CAP);
    }

    /** handleEmptyClick: a tap with nothing to hit is a miss. */
    method HandleEmptyClick()
      requires Valid()
      modifies this`combo, this`lives, this`endGameRequests
      ensures Valid()
      ensures old(gameState) != Playing ==> unchanged(this)
      ensures old(gameState) == Playing ==> MissRecorded()
    {
      if gameState != Playing {
        return;
      }
      combo := 0;
      lives := lives - 1;
      if lives <= 0 {
        endGameRequests := endGameRequests + 1;
      }
    }

    /** markTileMiss: a live tile becomes missed and costs a miss; a tile
        already hit or missed is left alone. */
    method MarkTileMiss(i: nat)
      requires Valid() && i < |tiles|
      modifies this`tiles, this`combo, this`lives, this`endGameRequests
      ensures Valid()
      ensures !Live(old(tiles)[i]) ==> unchanged(this)
      ensures Live(old(tiles)[i]) ==>
        tiles == old(tiles)[i := old(tiles)[i].(missed := true)] && MissRecorded()
    {
      if !Live(tiles[i]) {
        return;
      }
      tiles := tiles[i := tiles[i].(missed := true)];
      combo := 0;
      lives := lives - 1;
      if lives <= 0 {
        endGameRequests := endGameRequests + 1;
      }
    }

    /** The frame's auto-miss pass over the tiles, in list order. */
    method MarkMissesPass(limit: real)
      requires Valid()
      modifies this`tiles, this`combo, this`lives, this`endGameRequests
      ensures Valid()
      ensures tiles == MarkMisses(old(tiles), limit)
      ensures lives == old(lives) - MissCount(old(tiles), limit)
      ensures combo == (if MissCount(old(tiles), limit) > 0 then 0 else old(combo))
      ensures endGameRequests == old(endGameRequests) + EndRequests(old(lives), MissCount(old(tiles), limit))
    {
      var i := 0;
      while i < |tiles|
        invariant Valid()
        invariant 0 <= i <= |tiles| == |old(tiles)|
        invariant forall k :: 0 <= k < i ==> tiles[k] == MarkIfPast(old(tiles)[k], limit)
        invariant forall k :: i <= k < |tiles| ==> tiles[k] == old(tiles)[k]
        invariant lives == old(lives) - MissCount(old(tiles)[..i], limit)
        invariant combo == (if MissCount(old(tiles)[..i], limit) > 0 then 0 else old(combo))
        invariant endGameRequests == old(endGameRequests) + EndRequests(old(lives), MissCount(old(tiles)[..i], limit))
      {
        assert old(tiles)[..i + 1][..i] == old(tiles)[..i];
        if PastLine(tiles[i], limit) {
          MarkTileMiss(i);
        }
        i := i + 1;
      }
      assert old(tiles)[..i] == old(tiles);
    }

    /** The frame's move of every tile by `dy`. */
    method AdvanceTiles(dy: real)
      requires Valid()
      modifies this`tiles
      ensures Valid()
      ensures tiles == Advanced(old(tiles), dy)
    {
      tiles := AdvanceAll(tiles, dy);
    }

    /** cleanupTiles: drop the tiles past the off-screen cutoff. */
    method CleanupTiles()
      requires Valid()
      modifies this`tiles
      ensures Valid()
      ensures tiles == Kept(old(tiles))
    {
      KeptIdsAscending(tiles);
      KeptMembers(tiles);
      tiles := Kept(tiles);
    }

    /** spawnTile: append one tile in a safe column, or do nothing. */
    method SpawnTile(tileHeight: nat, pick: nat, initialY: real)
      requires Valid()
      modifies this`tiles, this`nextTileId
      ensures Valid()
      ensures (tiles, nextTileId) == SpawnInto(old(tiles), old(nextTileId), tileHeight, pick, initialY)
    {
      var minGap := MinGap(tileHeight);
      var lastYs := LowestPerColumn(tiles);
      var safe := SafeColsUpTo(lastYs, minGap, NUM_COLS);
      if |safe| == 0 {
        return;
      }
      SafeColsUpToSpec(lastYs, minGap, NUM_COLS);
      var col := safe[pick % |safe|];
      assert col in safe;
      tiles := tiles + [Tile(nextTileId, col, initialY, false, false)];
      nextTileId := nextTileId + 1;
    }

    /** The frame's tile pass: move every tile by `dy`, mark the live
        tiles past `limit` as missed, then drop the tiles off screen. */
    method Settle(dy: real, limit: real)
      requires Valid()
      modifies this`tiles, this`combo, this`lives, this`endGameRequests
      ensures Valid()
      ensures
        var moved := Advanced(old(tiles), dy);
        var misses := MissCount(moved, limit);
        && tiles == Kept(MarkMisses(moved, limit))
        && lives == old(lives) - misses
        && combo == (if misses > 0 then 0 else old(combo))
        && endGameRequests == old(endGameRequests) + EndRequests(old(lives), misses)
    {
      AdvanceTiles(dy);
      MarkMissesPass(limit);
      CleanupTiles();
    }

    /** The body of the animation-frame loop. */
    method Step(now: real, lineY: real, tileHeight: nat, pick: nat)
      requires Valid() && framePending
      modifies this`tiles, this`nextTileId, this`combo, this`lives, this`endGameRequests,
        this`lastTime, this`lastSpawn
      ensures Valid()
      ensures lastTime == now
      ensures
        var moved := Advanced(old(tiles), FallDistance(old(speed), now - old(lastTime)));
        var limit := lineY + MISS_MARGIN;
        var misses := MissCount(moved, limit);
        var settled := Kept(MarkMisses(moved, limit));
        && lives == old(lives) - misses
        && combo == (if misses > 0 then 0 else old(combo))
        && endGameRequests == old(endGameRequests) + EndRequests(old(lives), misses)
        && if SpawnDue(now, old(lastSpawn), old(speed)) then
             lastSpawn == now
             && (tiles, nextTileId) == SpawnInto(settled, old(nextTileId), tileHeight, pick, -(tileHeight as real))
           else
             lastSpawn == old(lastSpawn) && tiles == settled && nextTileId == old(nextTileId)
    {
      var dy := FallDistance(speed, now - lastTime);
      lastTime := now;
      Settle(dy, lineY + MISS_MARGIN);
      SpawnIfDue(now, tileHeight, pick);
    }

    /** The frame's cadence-gated spawn. */
    method SpawnIfDue(now: real, tileHeight: nat, pick: nat)
      requires Valid()
      modifies this`tiles, this`nextTileId, this`lastSpawn
      ensures Valid()
      ensures SpawnDue(now, old(lastSpawn), speed) ==>
        lastSpawn == now
        && (tiles, nextTileId) == SpawnInto(old(tiles), old(nextTileId), tileHeight, pick, -(tileHeight as real))
      ensures !SpawnDue(now, old(lastSpawn), speed) ==>
        lastSpawn == old(lastSpawn) && tiles == old(tiles) && nextTileId == old(nextTileId)
    {
      if now - lastSpawn > SPAWN_INTERVAL / RMax(MIN_SPEED_DIVISOR, speed) {
        SpawnTile(tileHeight, pick, -(tileHeight as real));
        lastSpawn := now;
      }
    }

    /** A column tap: score the nearest live tile of the column, or count a
        miss when there is none within the hit range. */
    method ColumnTap(c: int, lineY: real, tileHeight: nat) returns (target: Option<nat>)
      requires Valid()
      modifies this`tiles, this`score, this`combo, this`bestCombo, this`speed, this`lives, this`endGameRequests
      ensures Valid()
      ensures old(gameState) != Playing ==> target.None? && unchanged(this)
      ensures old(gameState) == Playing && target.Some? ==>
        && IsClosest(old(tiles), c, tileHeight as real, lineY, target.value)
        && Distance(old(tiles)[target.value], tileHeight as real, lineY) <= HIT_DETECTION_RANGE
        && Scored(target.value, tileHeight, lineY)
      ensures old(gameState) == Playing && target.None? ==>
        && (forall k :: 0 <= k < |old(tiles)| && Candidate(old(tiles)[k], c) ==>
              Distance(old(tiles)[k], tileHeight as real, lineY) > HIT_DETECTION_RANGE)
        && tiles == old(tiles) && MissRecorded()
    {
      target := None;
      if gameState != Playing {
        return;
      }
      var best := PickClosest(tiles, c, tileHeight as real, lineY);
      if best.None? || Distance(tiles[best.value], tileHeight as real, lineY) > HIT_DETECTION_RANGE {
        HandleEmptyClick();
        return;
      }
      var i := best.value;
      IndexOfOwnId(tiles, i);
      var _ := HandleTileClick(tiles[i].id, lineY, tileHeight);
      target := best;
    }

    /** A key press: score the first live tile of the key's column that is
        strictly within the hit range, or count a miss; other keys are
        ignored. */
    method KeyTap(key: string, lineY: real, tileHeight: nat) returns (target: Option<nat>)
      requires Valid()
      modifies this`tiles, this`score, this`combo, this`bestCombo, this`speed, this`lives, this`endGameRequests
      ensures Valid()
      ensures old(gameState) != Playing || KeyColumn(key).None? ==> target.None? && unchanged(this)
      ensures old(gameState) == Playing && KeyColumn(key).Some? ==>
        target == FirstHittable(old(tiles), KeyColumn(key).value, tileHeight as real, lineY, HIT_DETECTION_RANGE)
      ensures old(gameState) == Playing && KeyColumn(key).Some? && target.Some? ==>
        Scored(target.value, tileHeight, lineY)
      ensures old(gameState) == Playing && KeyColumn(key).Some? && target.None? ==>
        tiles == old(tiles) && MissRecorded()
    {
      target := None;
      if gameState != Playing {
        return;
      }
      var col := KeyColumn(key);
      if col.None? {
        return;
      }
      target := FirstHittable(tiles, col.value, tileHeight as real, lineY, HIT_DETECTION_RANGE);
      if target.None? {
        HandleEmptyClick();
      } else {
        IndexOfOwnId(tiles, target.value);
        var _ := HandleTileClick(tiles[target.value].id, lineY, tileHeight);
      }
    }

    /** The offsets of startGame's four staggered spawn timers, i * spacing
        for i = 0..3. */
    static method OpeningRequests(tileHeight: nat) returns (opening: seq<int>)
      ensures opening == OpeningOffsets(tileHeight)
    {
      var spacing := StaggerSpacing(tileHeight);
      opening := [];
      var i := 0;
      while i < 4
        invariant 0 <= i <= 4
        invariant opening == OpeningOffsets(tileHeight)[..i]
      {
        opening := opening + [i * spacing];
        i := i + 1;
      }
    }

    /** startLoop: restart the frame loop at `now` and enter play. */
    method StartLoop(now: real)
      requires Valid() && speed == START_SPEED
      modifies this`gameState, this`framePending, this`lastTime, this`lastSpawn
      ensures Valid()
      ensures gameState == Playing && framePending && lastTime == now && lastSpawn == now
    {
      framePending := true;
      lastTime := now;
      lastSpawn := now;
      gameState := Playing;
    }

    /** startGame: reset the session, record the four staggered opening
        spawns, and start the frame loop at `now`. Pending delayed calls of
        an earlier session are not cancelled. */
    method StartGame(now: real, tileHeight: nat)
      requires Valid()
      modifies this`tiles, this`nextTileId, this`gameState, this`score, this`combo, this`bestCombo,
        this`lives, this`speed, this`spawnRequests, this`framePending, this`lastTime, this`lastSpawn
      ensures Valid()
      ensures tiles == [] && nextTileId == 1 && gameState == Playing
      ensures score == 0 && combo == 0 && bestCombo == 0 && lives == MAX_LIVES && speed == START_SPEED
      ensures spawnRequests == old(spawnRequests) + OpeningOffsets(tileHeight)
      ensures framePending && lastTime == now && lastSpawn == now
    {
      var opening := OpeningRequests(tileHeight);
      tiles := [];
      nextTileId := 1;
      score := 0;
      combo := 0;
      bestCombo := 0;
      lives := MAX_LIVES;
      speed := START_SPEED;
      spawnRequests := spawnRequests + opening;
      StartLoop(now);
    }

    /** Pending opening spawn `j` runs: spawnTile at -tileHeight - offset,
        with the tile height of the moment it runs. Which pending timer
        fires next is the caller's choice. */
    method RunSpawnRequest(j: nat, tileHeight: nat, pick: nat)
      requires Valid() && j < |spawnRequests|
      modifies this`tiles, this`nextTileId, this`spawnRequests
      ensures Valid()
      ensures spawnRequests == old(spawnRequests)[..j] + old(spawnRequests)[j + 1..]
      ensures (tiles, nextTileId) ==
        SpawnInto(old(tiles), old(nextTileId), tileHeight, pick, -(tileHeight as real) - old(spawnRequests)[j] as real)
    {
      var offset := spawnRequests[j];
      spawnRequests := spawnRequests[..j] + spawnRequests[j + 1..];
      SpawnTile(tileHeight, pick, -(tileHeight as real) - offset as real);
    }

    /** endGame: stop the loop, enter game over, keep the better score. */
    method EndGame()
      requires Valid()
      modifies this`framePending, this`gameState, this`highScore
      ensures Valid()
      ensures !framePending && gameState == GameOver
      ensures highScore == NewHighScore(score, old(highScore))
    {
      framePending := false;
      gameState := GameOver;
      if score > highScore {
        highScore := score;
      }
    }

    /** A pending delayed endGame call runs. */
    method RunEndGameRequest()
      requires Valid() && endGameRequests > 0
      modifies this`endGameRequests, this`framePending, this`gameState, this`highScore
      ensures Valid()
      ensures endGameRequests == old(endGameRequests) - 1
      ensures !framePending && gameState == GameOver
      ensures highScore == NewHighScore(score, old(highScore))
    {
      endGameRequests := endGameRequests - 1;
      EndGame();
    }

    /** onThemeClick: move to the next theme; the answer says whether the
        theme player is restarted (only during play with sound on). */
    method OnThemeClick(soundEnabled: bool) returns (restart: bool)
      modifies this`activeTheme
      ensures activeTheme == NextTheme(old(activeTheme))
      ensures restart == (gameState == Playing && soundEnabled)
    {
      activeTheme := NextTheme(activeTheme);
      restart := gameState == Playing && soundEnabled;
    }
  }
}
