/** The tile board shared by both engine variants: the tile record, the
    geometry of a tap, the scoring tiers, and the per-frame list
    transformations (advance, auto-miss, off-screen cleanup, per-column
    lowest tile). The logic here appears in both game files except the
    closest-tile column lookup (PickClosest), which only gamelogic.js has;
    gamelogics.js takes the first hittable tile instead (FirstHittable).
    Rounding (Math.round) is used only by gamelogic.js and lives in its
    module.
    The tile record is gamelogic.js's tile and the shape gamelogics.js's
    handlers read; the constants in which the files differ live in their
    own modules. */
module Board {

  datatype Option<T> = None | Some(value: T)

  const NUM_COLS: int := 4
  /** Tiles whose y exceeds this are removed by cleanup. */
  const OFFSCREEN_CUTOFF: real := 900.0
  /** A live tile more than this far past the reference line is auto-missed. */
  const MISS_MARGIN: real := 100.0
  const PERFECT_ZONE: real := 60.0
  const MAX_LIVES: int := 3

  /** One falling tile; `y` is the top edge, growing downwards. */
  datatype Tile = Tile(id: int, col: int, y: real, hit: bool, missed: bool)

  datatype GameState = Menu | Playing | GameOver

  /** A tile that has been neither hit nor missed. */
  predicate Live(t: Tile) { !t.hit && !t.missed }

  function Abs(x: real): real { if x < 0.0 then -x else x }

  function Max(a: int, b: int): int { if a >= b then a else b }

  function RMin(a: real, b: real): real { if a <= b then a else b }

  function RMax(a: real, b: real): real { if a >= b then a else b }

  /** Distance between a tile's bottom edge and the reference line. */
  function Distance(t: Tile, tileHeight: real, lineY: real): real
  {
    Abs(t.y + tileHeight - lineY)
  }

  // ---------------------------------------------------------------------
  // Scoring tiers
  // ---------------------------------------------------------------------

  /** Points for a hit at the given distance from the reference line. */
  function Points(dist: real): int
  {
    if dist < 20.0 then 10
    else if dist < 40.0 then 5
    else if dist < PERFECT_ZONE then 3
    else 1
  }

  /** The tier table is a total step function: each distance falls in exactly
      one band and the bands are 10, 5, 3 and 1 points. */
  lemma PointsBands(dist: real)
    ensures Points(dist) == 10 <==> dist < 20.0
    ensures Points(dist) == 5 <==> 20.0 <= dist < 40.0
    ensures Points(dist) == 3 <==> 40.0 <= dist < PERFECT_ZONE
    ensures Points(dist) == 1 <==> PERFECT_ZONE <= dist
  {
  }

  /** Points never increase as the distance grows. */
  lemma PointsMonotone(d1: real, d2: real)
    requires d1 <= d2
    ensures Points(d2) <= Points(d1)
  {
  }

  // ---------------------------------------------------------------------
  // High score
  // ---------------------------------------------------------------------

  /** The stored high score after a game that ended with `score`. */
  function NewHighScore(score: int, highScore: int): int
  {
    if score > highScore then score else highScore
  }

  /** The high score moves iff it is beaten, never decreases, and a second
      end of the same game leaves it unchanged. */
  lemma NewHighScoreSpec(score: int, highScore: int)
    ensures NewHighScore(score, highScore) != highScore <==> score > highScore
    ensures NewHighScore(score, highScore) >= highScore
    ensures NewHighScore(score, highScore) >= score
    ensures NewHighScore(score, NewHighScore(score, highScore)) == NewHighScore(score, highScore)
  {
  }

  // ---------------------------------------------------------------------
  // Miss bookkeeping
  // ---------------------------------------------------------------------

  /** Number of delayed end-of-game requests recorded by `misses` successive
      misses starting from `lives`: every miss that leaves lives <= 0
      schedules one, with no guard against repeats. */
  function EndRequests(lives: int, misses: nat): nat
  {
    if misses == 0 then 0
    else EndRequests(lives, misses - 1) + (if lives - misses <= 0 then 1 else 0)
  }

  lemma {:induction false} EndRequestsClosedForm(lives: int, misses: nat)
    ensures EndRequests(lives, misses) ==
      if lives <= 0 then misses
      else if misses < lives then 0
      else misses - lives + 1
  {
    if misses > 0 {
      EndRequestsClosedForm(lives, misses - 1);
    }
  }

  /** Some end-of-game request is recorded exactly when the misses bring the
      lives to zero or below. */
  lemma EndRequestedIff(lives: int, misses: nat)
    ensures EndRequests(lives, misses) > 0 <==> misses > 0 && lives - misses <= 0
  {
  }

  /** Two misses in one frame with one life left request the end twice. */
  lemma EndRequestedTwice()
    ensures EndRequests(1, 2) == 2
  {
  }

  // ---------------------------------------------------------------------
  // Advancing tiles
  // ---------------------------------------------------------------------

  /** Every tile moved down by `dy`, nothing else changed. */
  function Advanced(ts: seq<Tile>, dy: real): seq<Tile>
  {
    seq(|ts|, k requires 0 <= k < |ts| => ts[k].(y := ts[k].y + dy))
  }

  /** The loop that moves every tile in place. */
  method AdvanceAll(ts: seq<Tile>, dy: real) returns (r: seq<Tile>)
    ensures |r| == |ts|
    ensures forall k :: 0 <= k < |ts| ==>
      r[k].y == ts[k].y + dy && r[k] == ts[k].(y := r[k].y)
    ensures r == Advanced(ts, dy)
  {
    r := ts;
    var i := 0;
    while i < |r|
      invariant 0 <= i <= |r| == |ts|
      invariant forall k :: 0 <= k < i ==> r[k] == ts[k].(y := ts[k].y + dy)
      invariant forall k :: i <= k < |r| ==> r[k] == ts[k]
    {
      r := r[i := r[i].(y := r[i].y + dy)];
      i := i + 1;
    }
  }

  // ---------------------------------------------------------------------
  // Auto-miss
  // ---------------------------------------------------------------------

  /** A live tile whose top is more than the miss margin past the line. */
  predicate PastLine(t: Tile, limit: real)
  {
    Live(t) && t.y > limit
  }

  function MarkIfPast(t: Tile, limit: real): Tile
  {
    if PastLine(t, limit) then t.(missed := true) else t
  }

  /** The tile list after the auto-miss pass. */
  function MarkMisses(ts: seq<Tile>, limit: real): seq<Tile>
  {
    seq(|ts|, k requires 0 <= k < |ts| => MarkIfPast(ts[k], limit))
  }

  /** How many tiles the auto-miss pass marks. */
  function MissCount(ts: seq<Tile>, limit: real): nat
  {
    if ts == [] then 0
    else MissCount(ts[..|ts| - 1], limit) + (if PastLine(ts[|ts| - 1], limit) then 1 else 0)
  }

  /** After the pass no live tile is past the line, exactly the counted tiles
      changed (and only their missed flag), and a second pass marks nothing. */
  lemma {:induction false} MarkMissesSpec(ts: seq<Tile>, limit: real)
    ensures |MarkMisses(ts, limit)| == |ts|
    ensures forall k :: 0 <= k < |ts| ==> !PastLine(MarkMisses(ts, limit)[k], limit)
    ensures forall k :: 0 <= k < |ts| ==>
      MarkMisses(ts, limit)[k] == (if PastLine(ts[k], limit) then ts[k].(missed := true) else ts[k])
    ensures MissCount(MarkMisses(ts, limit), limit) == 0
    ensures MissCount(ts, limit) == 0 <==> forall k :: 0 <= k < |ts| ==> !PastLine(ts[k], limit)
  {
    if ts != [] {
      var n := |ts| - 1;
      MarkMissesSpec(ts[..n], limit);
      assert MarkMisses(ts, limit)[..n] == MarkMisses(ts[..n], limit);
      assert forall k :: 0 <= k < n ==> ts[..n][k] == ts[k];
    }
  }

  // ---------------------------------------------------------------------
  // Off-screen cleanup
  // ---------------------------------------------------------------------

  /** The tiles that survive cleanup: those not past the off-screen cutoff,
      in their original order. */
  function Kept(ts: seq<Tile>): seq<Tile>
  {
    if ts == [] then []
    else (if ts[0].y > OFFSCREEN_CUTOFF then [] else [ts[0]]) + Kept(ts[1..])
  }

  /** Cleanup keeps a tile iff it is on the board and not past the cutoff. */
  lemma {:induction false} KeptMembers(ts: seq<Tile>)
    ensures |Kept(ts)| <= |ts|
    ensures forall t :: t in Kept(ts) <==> t in ts && t.y <= OFFSCREEN_CUTOFF
  {
    if ts != [] {
      KeptMembers(ts[1..]);
      assert ts == [ts[0]] + ts[1..];
    }
  }

  /** Cleanup preserves relative order: it distributes over concatenation. */
  lemma {:induction false} KeptConcat(a: seq<Tile>, b: seq<Tile>)
    ensures Kept(a + b) == Kept(a) + Kept(b)
  {
    if a != [] {
      assert (a + b)[1..] == a[1..] + b;
      KeptConcat(a[1..], b);
    } else {
      assert a + b == b;
    }
  }

  /** A second cleanup removes nothing. */
  lemma {:induction false} KeptIdempotent(ts: seq<Tile>)
    ensures Kept(Kept(ts)) == Kept(ts)
  {
    if ts != [] {
      KeptIdempotent(ts[1..]);
      var head := if ts[0].y > OFFSCREEN_CUTOFF then [] else [ts[0]];
      KeptConcat(head, Kept(ts[1..]));
    }
  }

  /** Ids strictly increase along the list (tiles are appended with fresh,
      growing ids). */
  ghost predicate IdsAscending(ts: seq<Tile>)
  {
    forall i, j :: 0 <= i < j < |ts| ==> ts[i].id < ts[j].id
  }

  /** Cleanup keeps only tiles that were there, so it keeps ids ascending. */
  lemma {:induction false} KeptIdsAscending(ts: seq<Tile>)
    requires IdsAscending(ts)
    ensures IdsAscending(Kept(ts))
  {
    if ts != [] {
      KeptIdsAscending(ts[1..]);
      KeptMembers(ts[1..]);
      var rest := Kept(ts[1..]);
      if ts[0].y <= OFFSCREEN_CUTOFF {
        forall j | 0 < j < |Kept(ts)|
          ensures ts[0].id < Kept(ts)[j].id
        {
          assert Kept(ts)[j] == rest[j - 1];
          assert rest[j - 1] in ts[1..];
        }
      }
    }
  }

  // ---------------------------------------------------------------------
  // Lowest tile per column
  // ---------------------------------------------------------------------

  /** The largest y (the tile lowest on screen) among the tiles in column
      `c`, or None (minus infinity) when the column is empty. */
  function ColumnLowest(ts: seq<Tile>, c: int): Option<real>
  {
    if ts == [] then None
    else
      var rest := ColumnLowest(ts[..|ts| - 1], c);
      var t := ts[|ts| - 1];
      if t.col != c then rest
      else if rest.Some? && rest.value >= t.y then rest
      else Some(t.y)
  }

  /** ColumnLowest is None iff the column is empty, and otherwise the
      maximum y of the column's tiles. */
  lemma {:induction false} ColumnLowestSpec(ts: seq<Tile>, c: int)
    ensures ColumnLowest(ts, c).None? <==> forall k :: 0 <= k < |ts| ==> ts[k].col != c
    ensures ColumnLowest(ts, c).Some? ==>
      (forall k :: 0 <= k < |ts| && ts[k].col == c ==> ts[k].y <= ColumnLowest(ts, c).value)
      && (exists k :: 0 <= k < |ts| && ts[k].col == c && ts[k].y == ColumnLowest(ts, c).value)
  {
    if ts != [] {
      var n := |ts| - 1;
      ColumnLowestSpec(ts[..n], c);
      assert forall k :: 0 <= k < n ==> ts[..n][k] == ts[k];
      if ColumnLowest(ts, c).Some? && ts[n].col == c && ColumnLowest(ts, c).value == ts[n].y {
        assert ts[n].col == c && ts[n].y == ColumnLowest(ts, c).value;
      }
    }
  }

  /** ColumnLowest for the columns 0..NUM_COLS-1. */
  function LowestYs(ts: seq<Tile>): seq<Option<real>>
  {
    seq(NUM_COLS, c requires 0 <= c < NUM_COLS => ColumnLowest(ts, c))
  }

  /** The loop that fills the per-column array, starting at minus infinity;
      tiles outside the columns are skipped. */
  method LowestPerColumn(ts: seq<Tile>) returns (lastYs: seq<Option<real>>)
    ensures |lastYs| == NUM_COLS
    ensures forall c :: 0 <= c < NUM_COLS ==>
      (lastYs[c].None? <==> forall k :: 0 <= k < |ts| ==> ts[k].col != c)
    ensures lastYs == LowestYs(ts)
  {
    var a := new Option<real>[NUM_COLS](_ => None);
    var i := 0;
    while i < |ts|
      invariant 0 <= i <= |ts|
      invariant forall c :: 0 <= c < NUM_COLS ==> a[c] == ColumnLowest(ts[..i], c)
    {
      var t := ts[i];
      assert ts[..i + 1][..i] == ts[..i];
      if 0 <= t.col < NUM_COLS {
        var cur := a[t.col];
        a[t.col] := if cur.Some? && cur.value >= t.y then cur else Some(t.y);
      }
      i := i + 1;
    }
    assert ts[..i] == ts;
    lastYs := a[..];
    forall c | 0 <= c < NUM_COLS
      ensures lastYs[c].None? <==> forall k :: 0 <= k < |ts| ==> ts[k].col != c
    {
      ColumnLowestSpec(ts, c);
    }
  }

  /** The key map shared by both variants: 1-4 and a, s, d, f select the
      columns left to right; any other key selects nothing. */
  function KeyColumn(key: string): Option<int>
  {
    if key == "1" || key == "a" then Some(0)
    else if key == "2" || key == "s" then Some(1)
    else if key == "3" || key == "d" then Some(2)
    else if key == "4" || key == "f" then Some(3)
    else None
  }

  /** Every mapped key selects a real column, and each column has a digit
      key and a letter key. */
  lemma KeyColumnSpec(key: string)
    ensures KeyColumn(key).Some? ==> 0 <= KeyColumn(key).value < NUM_COLS
    ensures KeyColumn(key).Some? <==> key in {"1", "2", "3", "4", "a", "s", "d", "f"}
    ensures KeyColumn("1") == KeyColumn("a") == Some(0) && KeyColumn("4") == KeyColumn("f") == Some(3)
  {
  }

  // ---------------------------------------------------------------------
  // Tap lookup
  // ---------------------------------------------------------------------

  /** Index of the first tile with the given id (Array.prototype.find). */
  function IndexOfId(ts: seq<Tile>, id: int): (r: Option<nat>)
    ensures r.None? <==> forall k :: 0 <= k < |ts| ==> ts[k].id != id
    ensures r.Some? ==>
      && r.value < |ts| && ts[r.value].id == id
      && (forall k :: 0 <= k < r.value ==> ts[k].id != id)
  {
    if ts == [] then None
    else if ts[0].id == id then Some(0)
    else match IndexOfId(ts[1..], id)
      case None => None
      case Some(i) => Some(i + 1)
  }

  /** With ascending ids, looking a tile up by its own id finds that tile. */
  lemma IndexOfOwnId(ts: seq<Tile>, i: nat)
    requires IdsAscending(ts) && i < |ts|
    ensures IndexOfId(ts, ts[i].id) == Some(i)
  {
  }

  /** A tile the player may tap in column `c`: live and in that column. */
  predicate Candidate(t: Tile, c: int)
  {
    Live(t) && t.col == c
  }

  /** Index of the first candidate tile of column `c` whose distance to the
      line is strictly below `range` (the keyboard lookup). */
  function FirstHittable(ts: seq<Tile>, c: int, tileHeight: real, lineY: real, range: real): (r: Option<nat>)
    ensures r.None? <==> forall k :: 0 <= k < |ts| ==>
      !(Candidate(ts[k], c) && Distance(ts[k], tileHeight, lineY) < range)
    ensures r.Some? ==>
      && r.value < |ts| && Candidate(ts[r.value], c)
      && Distance(ts[r.value], tileHeight, lineY) < range
      && (forall k :: 0 <= k < r.value ==> !(Candidate(ts[k], c) && Distance(ts[k], tileHeight, lineY) < range))
  {
    if ts == [] then None
    else if Candidate(ts[0], c) && Distance(ts[0], tileHeight, lineY) < range then Some(0)
    else match FirstHittable(ts[1..], c, tileHeight, lineY, range)
      case None => None
      case Some(i) => Some(i + 1)
  }

  /** `i` is the candidate of column `c` nearest to the line, ties going to
      the earliest one (a stable sort by distance, then its head). */
  ghost predicate IsClosest(ts: seq<Tile>, c: int, tileHeight: real, lineY: real, i: int)
  {
    && 0 <= i < |ts| && Candidate(ts[i], c)
    && (forall k :: 0 <= k < |ts| && Candidate(ts[k], c) ==>
          Distance(ts[i], tileHeight, lineY) <= Distance(ts[k], tileHeight, lineY))
    && (forall k :: 0 <= k < i && Candidate(ts[k], c) ==>
          Distance(ts[i], tileHeight, lineY) < Distance(ts[k], tileHeight, lineY))
  }

  /** The nearest candidate is unique. */
  lemma ClosestUnique(ts: seq<Tile>, c: int, tileHeight: real, lineY: real, i: int, j: int)
    requires IsClosest(ts, c, tileHeight, lineY, i) && IsClosest(ts, c, tileHeight, lineY, j)
    ensures i == j
  {
  }

  /** The column tap's candidate selection: filter the live tiles of the
      column, order them by distance (stable) and take the first. */
  method PickClosest(ts: seq<Tile>, c: int, tileHeight: real, lineY: real) returns (best: Option<nat>)
    ensures best.None? <==> forall k :: 0 <= k < |ts| ==> !Candidate(ts[k], c)
    ensures best.Some? ==> IsClosest(ts, c, tileHeight, lineY, best.value)
  {
    best := None;
    var i := 0;
    while i < |ts|
      invariant 0 <= i <= |ts|
      invariant best.None? <==> forall k :: 0 <= k < i ==> !Candidate(ts[k], c)
      invariant best.Some? ==> best.value < i && Candidate(ts[best.value], c)
      invariant best.Some? ==> forall k :: 0 <= k < i && Candidate(ts[k], c) ==>
        Distance(ts[best.value], tileHeight, lineY) <= Distance(ts[k], tileHeight, lineY)
      invariant best.Some? ==> forall k :: 0 <= k < best.value && Candidate(ts[k], c) ==>
        Distance(ts[best.value], tileHeight, lineY) < Distance(ts[k], tileHeight, lineY)
    {
      if Candidate(ts[i], c) {
        if best.None? || Distance(ts[i], tileHeight, lineY) < Distance(ts[best.value], tileHeight, lineY) {
          best := Some(i);
        }
      }
      i := i + 1;
    }
  }
}
