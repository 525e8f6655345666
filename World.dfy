/** The global state of MAIN.cpp and TYPES.cpp (the block list, the occupancy grid, the
    debris list, the current target and the debris settings) as one object, with the
    operations that change it: adding blocks and generating streets and buildings, rebuilding
    the grid, stepping the debris, choosing the target block and destroying it. */
module World {
  import opened Types
  import opened Mesh
  import opened Grid
  import opened Physics
  import opened Clipping
  import opened Fracture
  import opened City

  /** No block is targeted. */
  const NO_TARGET: int := -1
  /** The distance between two samples of the targeting ray. */
  const RAY_STEP: real := 0.15

  /** Grid cell (x, y, z) holds no block with index t after a rebuild in which block t is
      inactive: the grid never resolves to an inactive block. */
  lemma InactiveNotInGrid(g: BlockGrid, blocks: seq<Block>, t: nat)
    requires Consistent(g, blocks) && t < |blocks| && !blocks[t].active
    ensures forall x, y, z :: g.Get(x, y, z) != t
  {
    forall x, y, z
      ensures g.Get(x, y, z) != t
    {
      ConsistentGet(g, blocks, x, y, z);
    }
  }

  class World {
    var blocks: seq<Block>
    var fragments: seq<Fragment>
    var grid: BlockGrid?
    var targetIdx: int
    var hasTarget: bool
    var eternal: bool
    var timeout: real

    /** The grid, once allocated, only ever names blocks of the list. */
    ghost predicate Valid()
      reads this, if grid != null then {grid.data} else {}
    {
      grid != null ==> IndexesInto(grid, |blocks|)
    }

    /** The initial state: no blocks, no grid, no debris, no target, debris that expires
        after 10 seconds. */
    constructor ()
      ensures Valid()
      ensures blocks == [] && fragments == [] && grid == null
      ensures targetIdx == NO_TARGET && !hasTarget && !eternal && timeout == 10.0
    {
      blocks := [];
      fragments := [];
      grid := null;
      targetIdx := NO_TARGET;
      hasTarget := false;
      eternal := false;
      timeout := 10.0;
    }

    /** `addBlock`: one active block with the given position, colour and kind at the end;
        the blocks before it are unchanged. */
    method AddBlock(pos: Vec3, col: Vec3, kind: int)
      requires Valid()
      modifies this`blocks
      ensures blocks == old(blocks) + [Block(pos, col, true, kind)]
      ensures Valid()
    {
      blocks := blocks + [Block(pos, col, true, kind)];
    }

    /** `generateStreet`: for i in [0, length) and w in [-width, width], in that loop order,
        the blocks of street cell (i, w). */
    method GenerateStreet(startX: int, startZ: int, length: int, dir: int, width: int)
      requires Valid()
      modifies this`blocks
      ensures blocks == old(blocks) + StreetBlocks(startX, startZ, dir, width, if length > 0 then length else 0)
      ensures Valid()
    {
      var rows := if length > 0 then length else 0;
      for i := 0 to rows
        invariant blocks == old(blocks) + StreetBlocks(startX, startZ, dir, width, i)
        invariant Valid()
      {
        AddStreetRow(startX, startZ, dir, width, i);
        assert StreetBlocks(startX, startZ, dir, width, i + 1) ==
          StreetBlocks(startX, startZ, dir, width, i) + StreetRow(startX, startZ, dir, width, i, RowWidth(width));
      }
    }

    /** Row i of a street: its cells w = -width .. width in order. */
    method AddStreetRow(startX: int, startZ: int, dir: int, width: int, i: int)
      requires Valid()
      modifies this`blocks
      ensures blocks == old(blocks) + StreetRow(startX, startZ, dir, width, i, RowWidth(width))
      ensures Valid()
    {
      var w := -width;
      while w <= width
        invariant 0 <= w + width <= RowWidth(width)
        invariant blocks == old(blocks) + StreetRow(startX, startZ, dir, width, i, w + width)
        invariant Valid()
      {
        AddStreetCell(startX, startZ, dir, width, i, w);
        assert StreetRow(startX, startZ, dir, width, i, w + 1 + width) ==
          StreetRow(startX, startZ, dir, width, i, w + width) + StreetColumn(startX, startZ, dir, width, i, w);
        w := w + 1;
      }
    }

    method AddStreetCell(startX: int, startZ: int, dir: int, width: int, i: int, w: int)
      requires Valid()
      modifies this`blocks
      ensures blocks == old(blocks) + StreetColumn(startX, startZ, dir, width, i, w)
      ensures Valid()
    {
      var bx := if dir == 0 then startX + i else startX + w;
      var bz := if dir == 0 then startZ + w else startZ + i;
      var col := ASPHALT;
      if IntAbs(w) == width {
        col := CURB;
      } else if IntAbs(w) == width - 1 {
        col := SIDEWALK;
      } else if w == 0 && i % 4 < 2 {
        col := YELLOW_LINE;
      }
      AddBlock(Vec3(bx as real, 0.0, bz as real), col, STREET);
      if IntAbs(w) >= width - 1 {
        AddBlock(Vec3(bx as real, 1.0, bz as real), SIDEWALK, STREET);
      }
    }

    /** `generateBuilding`: the shell of a w x d building of h storeys at (bx, bz), every
        block of it a shell cell in an allowed colour, followed, when `antenna` is set, by
        the six antenna blocks. Lit windows draw their brightness from the generator. */
    method GenerateBuilding(rng: Rng, bx: int, bz: int, w: int, d: int, h: int,
                            wallCol: Vec3, winCol: Vec3, antenna: bool)
      requires Valid()
      modifies this`blocks, rng`drawn
      ensures Valid()
      ensures old(blocks) <= blocks
      ensures antenna ==> |blocks| >= |old(blocks)| + 6 && blocks[|blocks| - 6..] == AntennaBlocks(bx, bz, w, d, h)
      ensures forall k :: |old(blocks)| <= k < |blocks| - (if antenna then 6 else 0) ==>
        BuildingBlock(blocks[k], bx, bz, w, d, h, wallCol, winCol)
    {
      var x := 0;
      while x < w
        invariant old(blocks) <= blocks && Valid()
        invariant forall k :: |old(blocks)| <= k < |blocks| ==>
          BuildingBlock(blocks[k], bx, bz, w, d, h, wallCol, winCol)
      {
        var z := 0;
        while z < d
          invariant old(blocks) <= blocks && Valid()
          invariant forall k :: |old(blocks)| <= k < |blocks| ==>
            BuildingBlock(blocks[k], bx, bz, w, d, h, wallCol, winCol)
        {
          var y := 2;
          while y < h + 2
            invariant old(blocks) <= blocks && Valid()
            invariant forall k :: |old(blocks)| <= k < |blocks| ==>
              BuildingBlock(blocks[k], bx, bz, w, d, h, wallCol, winCol)
          {
            var isEdge := x == 0 || x == w - 1 || z == 0 || z == d - 1;
            var isTop := y == h + 1;
            if isEdge || isTop {
              var col := ShellCellColor(rng, x, z, y, w, d, h, wallCol, winCol);
              ghost var before := blocks;
              AddBlock(Vec3((bx + x) as real, y as real, (bz + z) as real), col, BUILDING);
              assert ShellCell(x, z, y, w, d, h);
              assert BuildingBlock(blocks[|blocks| - 1], bx, bz, w, d, h, wallCol, winCol);
            }
            y := y + 1;
          }
          z := z + 1;
        }
        x := x + 1;
      }
      if antenna {
        ghost var shell := blocks;
        var ax := bx + TruncDiv(w, 2);
        var az := bz + TruncDiv(d, 2);
        var ay := h + 2;
        while ay < h + 7
          invariant h + 2 <= ay <= h + 7
          invariant shell <= blocks && |blocks| == |shell| + (ay - h - 2) && Valid()
          invariant blocks[|shell|..] == AntennaBlocks(bx, bz, w, d, h)[..ay - h - 2]
        {
          AddBlock(Vec3(ax as real, ay as real, az as real), ANTENNA_MAST, DECORATION);
          ay := ay + 1;
        }
        AddBlock(Vec3(ax as real, (h + 7) as real, az as real), ANTENNA_TIP, DECORATION);
        assert blocks[|shell|..] == AntennaBlocks(bx, bz, w, d, h);
      }
    }

    /** The colour of shell cell (x, z, y), drawing one value to decide whether a window is
        lit and a second for its brightness. */
    static method ShellCellColor(rng: Rng, x: int, z: int, y: int, w: int, d: int, h: int,
                                 wallCol: Vec3, winCol: Vec3)
      returns (col: Vec3)
      modifies rng`drawn
      ensures ShellColor(col, x, z, y, w, d, h, wallCol, winCol)
    {
      var isCorner := CornerColumn(x, z, w, d);
      var isTop := y == h + 1;
      col := wallCol;
      if isCorner {
        col := FRAME;
      } else if isTop {
        col := ROOF;
      } else if y > 2 {
        if WindowCell(x, z, y, w, d) {
          var lit := rng.Real(0.0, 1.0);
          if lit > 0.4 {
            var l2 := rng.Real(0.0, 1.0);
            var bright := 0.6 + l2 * 0.4;
            col := Vec3(winCol.x * bright, winCol.y * bright, winCol.z * bright);
            assert col == winCol.Scale(bright);
          } else {
            col := UNLIT_WINDOW;
          }
        } else if (y - 2) % 3 == 0 {
          col := TRIM;
        }
      }
    }
  
    /** `rebuildGrid`: allocate the grid on first use, then rebuild it from the block list,
        after which it holds exactly what the rebuild specification says. */
    method RebuildGrid()
      requires Valid()
      modifies this`grid, if grid != null then {grid.data} else {}
      ensures grid != null && Consistent(grid, blocks) && Valid()
      ensures old(grid) != null ==> grid == old(grid)
    {
      if grid == null {
        grid := new BlockGrid();
      }
      grid.Rebuild(blocks);
      ConsistentGet(grid, blocks, 0, 0, 0);
    }

    /** `updateAllFragments` on the world's debris: every piece is stepped in place
        (`stepped`), then the still-active ones are kept in their order; there are no more
        pieces than the active ones before the step. */
    method UpdateFragments(dt: real, drag: (Vec3, real) -> Vec3) returns (ghost stepped: seq<Fragment>)
      requires Valid()
      modifies this`fragments
      ensures Valid()
      ensures |stepped| == |old(fragments)|
      ensures forall i :: 0 <= i < |stepped| ==>
        FragmentStep(grid, blocks, old(fragments)[i], dt,
                     drag(Fallen(old(fragments)[i].velocity, dt), dt), stepped[i])
      ensures fragments == Survivors(stepped)
      ensures forall i :: 0 <= i < |fragments| ==> fragments[i].active
      ensures |fragments| <= |Survivors(old(fragments))|
    {
      fragments, stepped := UpdateAllFragments(grid, blocks, fragments, dt, drag);
    }

    /** `findTarget`: march along the view ray from eye in steps of 0.15 up to the reach,
        test the active blocks registered in the 27 cells around each sample with `ray`
        (the slab test, giving the entry distance of a hit), keep the nearest hit within
        reach, and stop at the first sample that found one. Without a grid there is no
        target. Only an active block can become the target. */
    method FindTarget(eye: Vec3, dir: Vec3, ray: Vec3 -> Option<real>)
      requires Valid()
      modifies this`targetIdx, this`hasTarget
      ensures Valid()
      ensures hasTarget <==> targetIdx != NO_TARGET
      ensures grid == null ==> !hasTarget
      ensures hasTarget ==>
        0 <= targetIdx < |blocks| && blocks[targetIdx].active &&
        ray(blocks[targetIdx].position).Some? &&
        0.0 < ray(blocks[targetIdx].position).value <= REACH_DIST
    {
      var bestT := REACH_DIST + 1.0;
      hasTarget := false;
      targetIdx := NO_TARGET;
      var g := grid;
      if g == null {
        return;
      }
      var t := 0.0;
      ghost var steps: nat := 0;
      while t < REACH_DIST
        invariant t == steps as real * RAY_STEP && steps <= 54
        invariant hasTarget <==> targetIdx != NO_TARGET
        invariant hasTarget ==>
          0 <= targetIdx < |blocks| && blocks[targetIdx].active &&
          ray(blocks[targetIdx].position) == Some(bestT) && 0.0 < bestT <= REACH_DIST
        decreases 54 - steps
      {
        var p := eye.Add(dir.Scale(t));
        var cx := Round(p.x);
        var cy := Round(p.y);
        var cz := Round(p.z);
        for dx := -1 to 2
          invariant hasTarget <==> targetIdx != NO_TARGET
          invariant hasTarget ==>
            0 <= targetIdx < |blocks| && blocks[targetIdx].active &&
            ray(blocks[targetIdx].position) == Some(bestT) && 0.0 < bestT <= REACH_DIST
        {
          for dy := -1 to 2
            invariant hasTarget <==> targetIdx != NO_TARGET
            invariant hasTarget ==>
              0 <= targetIdx < |blocks| && blocks[targetIdx].active &&
              ray(blocks[targetIdx].position) == Some(bestT) && 0.0 < bestT <= REACH_DIST
          {
            for dz := -1 to 2
              invariant hasTarget <==> targetIdx != NO_TARGET
              invariant hasTarget ==>
                0 <= targetIdx < |blocks| && blocks[targetIdx].active &&
                ray(blocks[targetIdx].position) == Some(bestT) && 0.0 < bestT <= REACH_DIST
            {
              var idx := g.Get(cx + dx, cy + dy, cz + dz);
              if idx >= 0 && blocks[idx].active {
                var hit := ray(blocks[idx].position);
                if hit.Some? && hit.value > 0.0 && hit.value < bestT && hit.value <= REACH_DIST {
                  bestT := hit.value;
                  targetIdx := idx;
                  hasTarget := true;
                }
              }
            }
          }
        }
        if hasTarget {
          break;
        }
        t := t + RAY_STEP;
        steps := steps + 1;
      }
    }

    /** The destroy branch of the window procedure: only an active target inside the block
        list is acted on. It is marked inactive, shattered into debris appended to the
        fragment list, and the grid is rebuilt, so no cell resolves to it any more. Otherwise
        nothing changes. */
    method DestroyTarget(rng: Rng, sqrt: real -> real, order: seq<Vec3> -> seq<Vec3>)
      requires Valid() && Permutes(order)
      modifies this`blocks, this`fragments, this`grid, rng`drawn
      modifies if grid != null then {grid.data} else {}
      ensures Valid()
      ensures var acts := old(hasTarget && 0 <= targetIdx < |blocks| && blocks[targetIdx].active);
        !acts ==> (blocks == old(blocks) && fragments == old(fragments) && grid == old(grid) &&
                   rng.drawn == old(rng.drawn) && (grid != null ==> unchanged(grid.data)))
      ensures old(hasTarget && 0 <= targetIdx < |blocks| && blocks[targetIdx].active) ==>
        var t := old(targetIdx);
        blocks == old(blocks)[t := old(blocks)[t].(active := false)] &&
        old(fragments) <= fragments &&
        MICRO_PARTICLES + DUST_PARTICLES <= |fragments| - |old(fragments)| <=
          2 * FRACTURE_MAX_PIECES + MICRO_PARTICLES + DUST_PARTICLES &&
        (forall k :: |old(fragments)| <= k < |fragments| ==>
           fragments[k].active && fragments[k].color == old(blocks)[t].color) &&
        grid != null && Consistent(grid, blocks) &&
        forall x, y, z :: grid.Get(x, y, z) != t
    {
      if hasTarget && 0 <= targetIdx < |blocks| {
        var tb := blocks[targetIdx];
        if tb.active {
          tb := tb.(active := false);
          blocks := blocks[targetIdx := tb];
          var spawned := FractureAndSpawn(rng, tb, eternal, timeout, sqrt, order);
          fragments := fragments + spawned;
          RebuildGrid();
          InactiveNotInGrid(grid, blocks, targetIdx);
        }
      }
    }
  }
}
