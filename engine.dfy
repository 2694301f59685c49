/**
 * The mission engine as the text interface sees it: an immutable snapshot of the
 * answers its read-only queries give (map overview and dimensions, terrain and
 * occupant of a tile, squaddie info and position, the three objective lists and
 * the squaddies who can act this phase).
 */
module Engine {
  import opened Wrappers

  /** The engine's squaddie handle; the out-of-battle id is the stable key shown to players. */
  datatype SquaddieRef = SquaddieRef(inBattleId: int, outOfBattleId: string)

  datatype Affiliation = Player | Enemy | Ally | NoAffiliation

  datatype ConditionType = Unknown | Absorb | Armor | Elusive | Slowed | Hustle

  /** A status effect; `amount` and `duration` are each optional. */
  datatype Condition = Condition(kind: ConditionType, amount: Option<int>, duration: Option<int>)

  datatype SquaddieInfo = SquaddieInfo(
    name: string,
    affiliation: Affiliation,
    currentHitPoints: int,
    maxHitPoints: int,
    currentActionPoints: int,
    maximumActionPoints: int,
    conditions: seq<Condition>)

  /** A zero-based offset coordinate, as the player addresses a tile. */
  datatype Coord = Coord(row: int, col: int)

  /** A position whose row or column may be missing (the squaddie is off the map). */
  datatype MaybeOffMapCoord = MaybeOffMapCoord(row: Option<int>, col: Option<int>)

  /** One map tile: its own coordinate, terrain (an absent movement cost is a wall) and occupant. */
  datatype Tile = Tile(row: int, col: int, movementCost: Option<int>, canStop: bool, squaddie: Option<SquaddieRef>)

  datatype MapOverview = MapOverview(width: nat, height: nat, tiles: seq<seq<Tile>>)

  datatype RewardType = MissionFailure | OtherReward

  datatype Reward = Reward(kind: RewardType)

  /** Objective criteria; the affiliation and id sets are kept in insertion order. */
  datatype Criterion =
    | SquaddiesDefeated(affiliations: Option<seq<Affiliation>>, squaddieIds: Option<seq<string>>)
    | OtherCriterion

  datatype MissionObjective = MissionObjective(criteria: seq<Criterion>, rewards: seq<Reward>)

  /** Everything the text interface may ask the engine, frozen for one command. */
  datatype Snapshot = Snapshot(
    overview: MapOverview,
    info: SquaddieRef -> SquaddieInfo,
    position: SquaddieRef -> Option<MaybeOffMapCoord>,
    inProgress: seq<MissionObjective>,
    completedNotRewarded: seq<MissionObjective>,
    completedAndRewarded: seq<MissionObjective>,
    canAct: seq<SquaddieRef>)

  /** The engine's own consistency: `height` rows of `width` tiles, each tile at its own coordinate. */
  predicate WellFormed(m: MapOverview) {
    && |m.tiles| == m.height
    && forall r :: 0 <= r < m.height ==>
         |m.tiles[r]| == m.width
         && forall c :: 0 <= c < m.width ==> m.tiles[r][c].row == r && m.tiles[r][c].col == c
  }

  predicate OnMap(m: MapOverview, c: Coord) {
    0 <= c.row < m.height && 0 <= c.col < m.width
  }

  /** `getTerrainAtCoordinate` and `getSquaddieAtCoordinate` read this tile. */
  function TileAt(m: MapOverview, c: Coord): (t: Tile)
    requires WellFormed(m) && OnMap(m, c)
    ensures t.row == c.row && t.col == c.col
  {
    m.tiles[c.row][c.col]
  }

  predicate Occupied(t: Tile) {
    t.squaddie.Some?
  }

  function SquaddieKey(t: Tile): string
    requires Occupied(t)
  {
    t.squaddie.value.outOfBattleId
  }

  /** The occupied tiles of one row, left to right. */
  function RowOccupied(row: seq<Tile>): (r: seq<Tile>)
    ensures |r| <= |row|
    ensures forall i :: 0 <= i < |r| ==> Occupied(r[i]) && r[i] in row
    ensures forall t :: t in row && Occupied(t) ==> t in r
  {
    if row == [] then []
    else
      var t := row[|row| - 1];
      RowOccupied(row[..|row| - 1]) + (if Occupied(t) then [t] else [])
  }

  /** The occupied tiles of the map in row-major order (the order of every squaddie scan). */
  function OccupiedTiles(tiles: seq<seq<Tile>>): (r: seq<Tile>)
    ensures forall i :: 0 <= i < |r| ==> Occupied(r[i])
  {
    if tiles == [] then []
    else OccupiedTiles(tiles[..|tiles| - 1]) + RowOccupied(tiles[|tiles| - 1])
  }

  /** The scan finds exactly the occupied tiles of the map. */
  lemma {:induction false} OccupiedTilesMembers(tiles: seq<seq<Tile>>)
    ensures forall t :: t in OccupiedTiles(tiles) <==> Occupied(t) && exists r :: 0 <= r < |tiles| && t in tiles[r]
    decreases |tiles|
  {
    if tiles != [] {
      var n := |tiles| - 1;
      var init, last := tiles[..n], tiles[n];
      OccupiedTilesMembers(init);
      var before, here := OccupiedTiles(init), RowOccupied(last);
      assert OccupiedTiles(tiles) == before + here;
      forall t | Occupied(t) && (exists r :: 0 <= r < |tiles| && t in tiles[r])
        ensures t in before + here
      {
        var r :| 0 <= r < |tiles| && t in tiles[r];
        if r < n {
          assert init[r] == tiles[r];
          assert t in before;
        } else {
          assert t in here;
        }
      }
      forall t | t in before + here
        ensures exists r :: 0 <= r < |tiles| && t in tiles[r]
      {
        if t in before {
          var r :| 0 <= r < n && t in init[r];
          assert init[r] == tiles[r];
        } else {
          assert t in here;
          assert t in tiles[n];
        }
      }
    }
  }

  /** The out-of-battle ids of a run of occupied tiles, in order. */
  function Keys(ts: seq<Tile>): (ids: seq<string>)
    requires forall i :: 0 <= i < |ts| ==> Occupied(ts[i])
    ensures |ids| == |ts|
    ensures forall i :: 0 <= i < |ts| ==> ids[i] == SquaddieKey(ts[i])
  {
    if ts == [] then [] else Keys(ts[..|ts| - 1]) + [SquaddieKey(ts[|ts| - 1])]
  }

  /** The ids found by a row-major scan of the map. */
  function ScanIds(tiles: seq<seq<Tile>>): seq<string> {
    Keys(OccupiedTiles(tiles))
  }

  /** Scanning one more tile of row `r` appends it when it is occupied. */
  lemma ScanStep(tiles: seq<seq<Tile>>, r: nat, c: nat)
    requires r < |tiles| && c < |tiles[r]|
    ensures OccupiedTiles(tiles[..r]) + RowOccupied(tiles[r][..c + 1])
         == OccupiedTiles(tiles[..r]) + RowOccupied(tiles[r][..c])
            + (if Occupied(tiles[r][c]) then [tiles[r][c]] else [])
  {
    assert tiles[r][..c + 1][..c] == tiles[r][..c];
  }

  /** Finishing row `r` completes the scan of the first `r + 1` rows. */
  lemma ScanRowDone(tiles: seq<seq<Tile>>, r: nat)
    requires r < |tiles|
    ensures OccupiedTiles(tiles[..r + 1]) == OccupiedTiles(tiles[..r]) + RowOccupied(tiles[r][..|tiles[r]|])
  {
    assert tiles[..r + 1][..r] == tiles[..r];
    assert tiles[r][..|tiles[r]|] == tiles[r];
  }

  /** The key of one more occupied tile is appended to the keys. */
  lemma KeysSnoc(ts: seq<Tile>, t: Tile)
    requires forall i :: 0 <= i < |ts| ==> Occupied(ts[i])
    requires Occupied(t)
    ensures Keys(ts + [t]) == Keys(ts) + [SquaddieKey(t)]
  {
    assert (ts + [t])[..|ts|] == ts;
  }

  /** The ids found after the first `r` rows and the first `c` tiles of row `r`. */
  function ScanIdsUpTo(tiles: seq<seq<Tile>>, r: nat, c: nat): seq<string>
    requires r < |tiles| && c <= |tiles[r]|
  {
    Keys(OccupiedTiles(tiles[..r]) + RowOccupied(tiles[r][..c]))
  }

  lemma ScanIdsRowStart(tiles: seq<seq<Tile>>, r: nat)
    requires r < |tiles|
    ensures ScanIdsUpTo(tiles, r, 0) == ScanIds(tiles[..r])
  {
    assert tiles[r][..0] == [];
    assert OccupiedTiles(tiles[..r]) + RowOccupied(tiles[r][..0]) == OccupiedTiles(tiles[..r]);
  }

  lemma ScanIdsStep(tiles: seq<seq<Tile>>, r: nat, c: nat)
    requires r < |tiles| && c < |tiles[r]|
    ensures ScanIdsUpTo(tiles, r, c + 1)
         == ScanIdsUpTo(tiles, r, c) + (if Occupied(tiles[r][c]) then [SquaddieKey(tiles[r][c])] else [])
  {
    var seen := OccupiedTiles(tiles[..r]) + RowOccupied(tiles[r][..c]);
    ScanStep(tiles, r, c);
    if Occupied(tiles[r][c]) {
      KeysSnoc(seen, tiles[r][c]);
    } else {
      assert seen + [] == seen;
    }
  }

  lemma ScanIdsRowDone(tiles: seq<seq<Tile>>, r: nat)
    requires r < |tiles|
    ensures ScanIdsUpTo(tiles, r, |tiles[r]|) == ScanIds(tiles[..r + 1])
  {
    ScanRowDone(tiles, r);
  }
}
