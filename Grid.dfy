/** The voxel occupancy index of ALLOPTIMIZER.cpp: a dense 256 x 128 x 256 array of block
    indices covering world cells x, z in [-64, 192) and y in [0, 128), with -1 for "empty";
    the rebuild from the block list, the face-culling and player-collision queries built on
    it, and single-cell removal. The global `blockGrid` is a nullable `BlockGrid?` parameter:
    null until the first rebuild allocates it. */
module Grid {
  import opened Types
  import opened Mesh

  const GRID_SIZE: int := 256
  const GRID_OFFSET: int := 64
  const GRID_HEIGHT: int := 128
  /** The cell value meaning "no block". */
  const EMPTY: int := -1

  /** An integer world cell. */
  datatype Voxel = Voxel(x: int, y: int, z: int)

  /** `(int)floorf(p + 0.5f)`: the integer nearest to p, ties rounding up. */
  function Round(p: real): (r: int)
    ensures p - 0.5 < r as real <= p + 0.5
  {
    (p + 0.5).Floor
  }

  /** The cell a block at position p occupies. */
  function VoxelOf(p: Vec3): Voxel {
    Voxel(Round(p.x), Round(p.y), Round(p.z))
  }

  /** The part of the world the grid covers. */
  predicate InRegion(v: Voxel) {
    -64 <= v.x < 192 && 0 <= v.y < 128 && -64 <= v.z < 192
  }

  predicate InArray(i: int, j: int, k: int) {
    0 <= i < GRID_SIZE && 0 <= j < GRID_HEIGHT && 0 <= k < GRID_SIZE
  }

  /** The world cell that array element [i][j][k] stands for. */
  function VoxelAt(i: int, j: int, k: int): Voxel {
    Voxel(i - GRID_OFFSET, j, k - GRID_OFFSET)
  }

  datatype Slot = Slot(i: int, j: int, k: int)

  /** The offset-and-bounds mapping of `set` and `get` from a world cell to an array element:
      defined exactly on the covered region, and inverse to VoxelAt. */
  function SlotOf(v: Voxel): (r: Option<Slot>)
    ensures r.Some? <==> InRegion(v)
    ensures r.Some? ==> InArray(r.value.i, r.value.j, r.value.k)
    ensures r.Some? ==> VoxelAt(r.value.i, r.value.j, r.value.k) == v
  {
    var i := v.x + GRID_OFFSET;
    var k := v.z + GRID_OFFSET;
    if 0 <= i < GRID_SIZE && 0 <= v.y < GRID_HEIGHT && 0 <= k < GRID_SIZE
    then Some(Slot(i, v.y, k)) else None
  }

  /** Every array element stands for a covered cell, and maps back to itself. */
  lemma SlotOfVoxelAt(i: int, j: int, k: int)
    requires InArray(i, j, k)
    ensures InRegion(VoxelAt(i, j, k)) && SlotOf(VoxelAt(i, j, k)) == Some(Slot(i, j, k))
  {}

  /** The second copy of the mapping, written out again in `removeBlockFromGrid` from a
      block position; it agrees with the one of `set` and `get`. */
  function RemovalSlot(p: Vec3): (r: Option<Slot>)
    ensures r == SlotOf(VoxelOf(p))
  {
    var cx := Round(p.x) + GRID_OFFSET;
    var cy := Round(p.y);
    var cz := Round(p.z) + GRID_OFFSET;
    if 0 <= cx < GRID_SIZE && 0 <= cy < GRID_HEIGHT && 0 <= cz < GRID_SIZE
    then Some(Slot(cx, cy, cz)) else None
  }

  /** The ground layer is laid at y = -1, below the covered region, so it never enters the
      grid. */
  lemma GroundLayerOutside(p: Vec3)
    requires p.y == -1.0
    ensures !InRegion(VoxelOf(p)) && SlotOf(VoxelOf(p)) == None
  {}

  class BlockGrid {
    const data: array3<int>

    ghost predicate Valid() {
      data.Length0 == GRID_SIZE && data.Length1 == GRID_HEIGHT && data.Length2 == GRID_SIZE
    }

    /** `new BlockGrid()`: a value-initialised array, every element 0. */
    constructor ()
      ensures Valid() && fresh(data)
      ensures forall i, j, k :: InArray(i, j, k) ==> data[i, j, k] == 0
    {
      data := new int[GRID_SIZE, GRID_HEIGHT, GRID_SIZE]((i, j, k) => 0);
    }

    /** `clear`: every element -1, so every cell of the world reads as empty. */
    method Clear()
      requires Valid()
      modifies data
      ensures forall i, j, k :: InArray(i, j, k) ==> data[i, j, k] == EMPTY
      ensures forall x, y, z :: Get(x, y, z) == EMPTY
    {
      forall i, j, k | 0 <= i < GRID_SIZE && 0 <= j < GRID_HEIGHT && 0 <= k < GRID_SIZE {
        data[i, j, k] := EMPTY;
      }
    }

    /** `get`: the element for the cell inside the covered region, -1 outside it, so it
        never reads outside the array. */
    function Get(x: int, y: int, z: int): (r: int)
      requires Valid()
      reads data
      ensures r == match SlotOf(Voxel(x, y, z))
                   case None => EMPTY
                   case Some(s) => data[s.i, s.j, s.k]
      ensures !InRegion(Voxel(x, y, z)) ==> r == EMPTY
    {
      var i := x + GRID_OFFSET;
      var k := z + GRID_OFFSET;
      if 0 <= i < GRID_SIZE && 0 <= y < GRID_HEIGHT && 0 <= k < GRID_SIZE
      then data[i, y, k] else EMPTY
    }

    /** `set`: stores idx in the cell's element if the cell is covered; no other element
        changes, and nothing changes for an uncovered cell. */
    method Set(x: int, y: int, z: int, idx: int)
      requires Valid()
      modifies data
      ensures forall i, j, k :: InArray(i, j, k) ==>
        data[i, j, k] == if VoxelAt(i, j, k) == Voxel(x, y, z) then idx else old(data[i, j, k])
      ensures InRegion(Voxel(x, y, z)) ==> Get(x, y, z) == idx
    {
      var i := x + GRID_OFFSET;
      var k := z + GRID_OFFSET;
      if 0 <= i < GRID_SIZE && 0 <= y < GRID_HEIGHT && 0 <= k < GRID_SIZE {
        data[i, y, k] := idx;
      }
    }

    /** `occupied`: the cell holds an index; only covered cells can. */
    function Occupied(x: int, y: int, z: int): (r: bool)
      requires Valid()
      reads data
      ensures r <==> Get(x, y, z) >= 0
      ensures r ==> InRegion(Voxel(x, y, z))
    {
      Get(x, y, z) >= 0
    }

    /** `rebuildGrid` on an allocated grid: clear it, then register each active block at its
        rounded cell in index order, so the later of two blocks sharing a cell wins. */
    method Rebuild(blocks: seq<Block>)
      requires Valid()
      modifies data
      ensures Consistent(this, blocks)
    {
      Clear();
      for n := 0 to |blocks|
        invariant forall i, j, k :: InArray(i, j, k) ==>
          data[i, j, k] == LastAt(blocks, n, VoxelAt(i, j, k))
      {
        if !blocks[n].active {
          continue;
        }
        var cx := Round(blocks[n].position.x);
        var cy := Round(blocks[n].position.y);
        var cz := Round(blocks[n].position.z);
        Set(cx, cy, cz, n);
      }
    }
  }

  /** What a rebuild over blocks[..n] leaves in the element of cell v: the last active block
      among them whose rounded position is v, or EMPTY if there is none. */
  function LastAt(blocks: seq<Block>, n: nat, v: Voxel): (r: int)
    requires n <= |blocks|
    ensures r == EMPTY || (0 <= r < n && blocks[r].active && VoxelOf(blocks[r].position) == v)
    ensures forall i :: r < i < n ==> !(blocks[i].active && VoxelOf(blocks[i].position) == v)
  {
    if n == 0 then EMPTY
    else if blocks[n - 1].active && VoxelOf(blocks[n - 1].position) == v then n - 1
    else LastAt(blocks, n - 1, v)
  }

  /** The grid holds, for every covered cell, exactly what a rebuild from `blocks` puts
      there. */
  ghost predicate Consistent(g: BlockGrid, blocks: seq<Block>)
    reads g.data
  {
    g.Valid() &&
    forall i, j, k :: InArray(i, j, k) ==>
      g.data[i, j, k] == LastAt(blocks, |blocks|, VoxelAt(i, j, k))
  }

  /** Every element is EMPTY or a valid index into a list of n blocks. */
  ghost predicate IndexesInto(g: BlockGrid, n: nat)
    reads g.data
  {
    g.Valid() && forall i, j, k :: InArray(i, j, k) ==> g.data[i, j, k] < n
  }

  /** After a rebuild, `get` at any cell is EMPTY or the index of an active block that rounds
      to that cell, and no active block rounding to that cell comes after it. */
  lemma ConsistentGet(g: BlockGrid, blocks: seq<Block>, x: int, y: int, z: int)
    requires Consistent(g, blocks)
    ensures IndexesInto(g, |blocks|)
    ensures var r := g.Get(x, y, z);
      (r == EMPTY || (0 <= r < |blocks| && blocks[r].active
                      && VoxelOf(blocks[r].position) == Voxel(x, y, z)))
      && (InRegion(Voxel(x, y, z)) ==>
            forall i :: r < i < |blocks| ==>
              !(blocks[i].active && VoxelOf(blocks[i].position) == Voxel(x, y, z)))
  {
    var v := Voxel(x, y, z);
    if InRegion(v) {
      var s := SlotOf(v).value;
      assert g.Get(x, y, z) == LastAt(blocks, |blocks|, VoxelAt(s.i, s.j, s.k));
    }
  }

  /** An active, covered block that no later active block shares a cell with is what `get`
      returns at its rounded position after a rebuild. */
  lemma RebuildFindsBlock(g: BlockGrid, blocks: seq<Block>, b: nat)
    requires Consistent(g, blocks)
    requires b < |blocks| && blocks[b].active && InRegion(VoxelOf(blocks[b].position))
    requires forall i :: b < i < |blocks| ==>
      !(blocks[i].active && VoxelOf(blocks[i].position) == VoxelOf(blocks[b].position))
    ensures var v := VoxelOf(blocks[b].position); g.Get(v.x, v.y, v.z) == b
  {
    var v := VoxelOf(blocks[b].position);
    ConsistentGet(g, blocks, v.x, v.y, v.z);
  }

  /** The rebuilt grid depends only on the block list: rebuilding again without changing the
      blocks reproduces every element. */
  lemma RebuildIsIdempotent(g: BlockGrid, h: BlockGrid, blocks: seq<Block>)
    requires Consistent(g, blocks) && Consistent(h, blocks)
    ensures forall i, j, k :: InArray(i, j, k) ==> g.data[i, j, k] == h.data[i, j, k]
  {}

  /** `gridOccupied`: false while no grid has been allocated. */
  function GridOccupied(g: BlockGrid?, x: int, y: int, z: int): (r: bool)
    requires g != null ==> g.Valid()
    reads if g != null then {g.data} else {}
    ensures r <==> g != null && g.Get(x, y, z) >= 0
  {
    if g == null then false else g.Occupied(x, y, z)
  }

  /** `faceVisible`: face f of the block at pos (0..5 = -z, +z, -x, +x, -y, +y) is visible
      unless the neighbouring cell across it is occupied; any other face number counts as
      visible. */
  function FaceVisible(g: BlockGrid?, pos: Vec3, face: int): (r: bool)
    requires g != null ==> g.Valid()
    reads if g != null then {g.data} else {}
    ensures !(0 <= face < 6) ==> r
  {
    var cx := Round(pos.x);
    var cy := Round(pos.y);
    var cz := Round(pos.z);
    match face
    case 0 => !GridOccupied(g, cx, cy, cz - 1)
    case 1 => !GridOccupied(g, cx, cy, cz + 1)
    case 2 => !GridOccupied(g, cx - 1, cy, cz)
    case 3 => !GridOccupied(g, cx + 1, cy, cz)
    case 4 => !GridOccupied(g, cx, cy - 1, cz)
    case 5 => !GridOccupied(g, cx, cy + 1, cz)
    case _ => true
  }

  /** The neighbour `faceVisible` tests for face f is the cell one step along the outward
      normal that the face's quad is drawn with: the face is visible exactly when that cell
      is not occupied. */
  lemma FaceVisibleAcrossNormal(g: BlockGrid?, pos: Vec3, face: nat)
    requires g != null ==> g.Valid()
    requires face < 6
    ensures var c := VoxelOf(pos);
      var n := FACE_NORMALS[face];
      FaceVisible(g, pos, face) <==>
        !GridOccupied(g, c.x + n.x.Floor, c.y + n.y.Floor, c.z + n.z.Floor)
  {}

  /** The visible faces among 0 .. n-1, in increasing order. */
  function VisibleFaces(g: BlockGrid?, pos: Vec3, n: nat): (r: seq<nat>)
    requires g != null ==> g.Valid()
    reads if g != null then {g.data} else {}
    ensures |r| <= n
    ensures forall t :: 0 <= t < |r| ==> r[t] < n
  {
    if n == 0 then []
    else VisibleFaces(g, pos, n - 1) + (if FaceVisible(g, pos, n - 1) then [n - 1] else [])
  }

  /** VisibleFaces lists exactly the visible faces below n. */
  lemma {:induction false} VisibleFacesExact(g: BlockGrid?, pos: Vec3, n: nat)
    requires g != null ==> g.Valid()
    ensures forall f :: 0 <= f < n ==> (f in VisibleFaces(g, pos, n) <==> FaceVisible(g, pos, f))
  {
    if n > 0 {
      VisibleFacesExact(g, pos, n - 1);
      var prev := VisibleFaces(g, pos, n - 1);
      var cur := VisibleFaces(g, pos, n);
      if FaceVisible(g, pos, n - 1) {
        assert cur == prev + [n - 1];
        forall f | 0 <= f < n ensures f in cur <==> FaceVisible(g, pos, f) {
          if f < n - 1 {
            assert f in cur <==> f in prev;
          }
        }
      } else {
        assert cur == prev;
      }
    }
  }

  /** VisibleFaces lists the faces in increasing order, so each at most once. */
  lemma {:induction false} VisibleFacesIncreasing(g: BlockGrid?, pos: Vec3, n: nat)
    requires g != null ==> g.Valid()
    ensures forall t, u :: 0 <= t < u < |VisibleFaces(g, pos, n)| ==>
      VisibleFaces(g, pos, n)[t] < VisibleFaces(g, pos, n)[u]
  {
    if n > 0 {
      VisibleFacesIncreasing(g, pos, n - 1);
      var prev := VisibleFaces(g, pos, n - 1);
      var cur := VisibleFaces(g, pos, n);
      if FaceVisible(g, pos, n - 1) {
        assert cur == prev + [n - 1];
        forall t, u | 0 <= t < u < |cur| ensures cur[t] < cur[u] {
          assert cur[t] == prev[t];
        }
      } else {
        assert cur == prev;
      }
    }
  }

  /** `genCubeOptimized`: one shaded quad (4 vertices, 6 indices) for each visible face, in
      face order, and nothing for a hidden one: the t-th visible face f occupies vertices
      4t .. 4t+3 past the old end, with face f's corners, outward normal and shade, and its two
      triangles index only those four vertices. */
  method GenCubeOptimized(g: BlockGrid?, pos: Vec3, col: Vec3, size: real,
                          V: seq<Vertex>, I: seq<nat>)
    returns (V': seq<Vertex>, I': seq<nat>)
    requires g != null ==> g.Valid()
    ensures ShadedQuads(V, I, V', I', VisibleFaces(g, pos, 6), CubeCorners(pos, size * 0.5), col)
  {
    var corners := CubeCorners(pos, size * 0.5);
    V', I' := V, I;
    for f := 0 to 6
      invariant ShadedQuads(V, I, V', I', VisibleFaces(g, pos, f), corners, col)
    {
      V', I' := ShadeIfVisible(g, pos, f, corners, col, V, I, V', I');
    }
  }

  /** One face of the loop of `genCubeOptimized`: a shaded quad for face f when it is
      visible, nothing otherwise. */
  method ShadeIfVisible(g: BlockGrid?, pos: Vec3, f: nat, corners: seq<Vec3>, col: Vec3,
                        ghost V: seq<Vertex>, ghost I: seq<nat>, V': seq<Vertex>, I': seq<nat>)
    returns (V'': seq<Vertex>, I'': seq<nat>)
    requires g != null ==> g.Valid()
    requires f < 6 && ShadedQuads(V, I, V', I', VisibleFaces(g, pos, f), corners, col)
    ensures ShadedQuads(V, I, V'', I'', VisibleFaces(g, pos, f + 1), corners, col)
  {
    ghost var shown := VisibleFaces(g, pos, f);
    if FaceVisible(g, pos, f) {
      assert VisibleFaces(g, pos, f + 1) == shown + [f];
      V'', I'' := AppendShadedFace(V, I, V', I', shown, corners, f, col);
    } else {
      assert VisibleFaces(g, pos, f + 1) == shown;
      V'', I'' := V', I';
    }
  }

  /** The player's box at pos overlaps the unit block at p (strict inequalities). */
  predicate PlayerOverlaps(pos: Vec3, p: Vec3) {
    var r := PLAYER_RADIUS;
    var h := 0.5;
    pos.x + r > p.x - h && pos.x - r < p.x + h &&
    pos.y + PLAYER_HEIGHT > p.y - h && pos.y < p.y + h &&
    pos.z + r > p.z - h && pos.z - r < p.z + h
  }

  /** The cells `collidesPlayerFast` scans around the player at pos. */
  predicate InScanBox(pos: Vec3, x: int, y: int, z: int) {
    (pos.x - PLAYER_RADIUS - 0.5).Floor <= x <= (pos.x + PLAYER_RADIUS + 1.5).Floor &&
    (pos.y - 0.5).Floor <= y <= (pos.y + PLAYER_HEIGHT + 1.5).Floor &&
    (pos.z - PLAYER_RADIUS - 0.5).Floor <= z <= (pos.z + PLAYER_RADIUS + 1.5).Floor
  }

  /** Cell (x, y, z) holds an active block that overlaps the player at pos. */
  predicate CellHits(g: BlockGrid, blocks: seq<Block>, pos: Vec3, x: int, y: int, z: int)
    requires IndexesInto(g, |blocks|)
    reads g.data
  {
    var idx := g.Get(x, y, z);
    idx >= 0 && blocks[idx].active && PlayerOverlaps(pos, blocks[idx].position)
  }

  /** `collidesPlayerFast`: false without a grid; otherwise true exactly when some scanned
      cell holds an active block overlapping the player. */
  method CollidesPlayerFast(g: BlockGrid?, blocks: seq<Block>, pos: Vec3) returns (hit: bool)
    requires g != null ==> IndexesInto(g, |blocks|)
    ensures hit <==> (g != null &&
      exists x, y, z :: InScanBox(pos, x, y, z) && CellHits(g, blocks, pos, x, y, z))
  {
    if g == null {
      return false;
    }
    var minX := (pos.x - PLAYER_RADIUS - 0.5).Floor;
    var maxX := (pos.x + PLAYER_RADIUS + 1.5).Floor;
    var minY := (pos.y - 0.5).Floor;
    var maxY := (pos.y + PLAYER_HEIGHT + 1.5).Floor;
    var minZ := (pos.z - PLAYER_RADIUS - 0.5).Floor;
    var maxZ := (pos.z + PLAYER_RADIUS + 1.5).Floor;
    var cx := minX;
    while cx <= maxX
      invariant minX <= cx <= maxX + 1
      invariant forall x, y, z :: minX <= x < cx && InScanBox(pos, x, y, z) ==>
        !CellHits(g, blocks, pos, x, y, z)
    {
      var cy := minY;
      while cy <= maxY
        invariant minY <= cy <= maxY + 1
        invariant forall x, y, z :: minX <= x < cx && InScanBox(pos, x, y, z) ==>
          !CellHits(g, blocks, pos, x, y, z)
        invariant forall y, z :: minY <= y < cy && InScanBox(pos, cx, y, z) ==>
          !CellHits(g, blocks, pos, cx, y, z)
      {
        var cz := minZ;
        while cz <= maxZ
          invariant minZ <= cz <= maxZ + 1
          invariant forall x, y, z :: minX <= x < cx && InScanBox(pos, x, y, z) ==>
            !CellHits(g, blocks, pos, x, y, z)
          invariant forall y, z :: minY <= y < cy && InScanBox(pos, cx, y, z) ==>
            !CellHits(g, blocks, pos, cx, y, z)
          invariant forall z :: minZ <= z < cz ==> !CellHits(g, blocks, pos, cx, cy, z)
        {
          var idx := g.Get(cx, cy, cz);
          if idx < 0 || !blocks[idx].active {
            cz := cz + 1;
            continue;
          }
          var h := 0.5;
          var bl := blocks[idx].position;
          if pos.x + PLAYER_RADIUS > bl.x - h && pos.x - PLAYER_RADIUS < bl.x + h &&
             pos.y + PLAYER_HEIGHT > bl.y - h && pos.y < bl.y + h &&
             pos.z + PLAYER_RADIUS > bl.z - h && pos.z - PLAYER_RADIUS < bl.z + h {
            assert CellHits(g, blocks, pos, cx, cy, cz);
            return true;
          }
          cz := cz + 1;
        }
        cy := cy + 1;
      }
      cx := cx + 1;
    }
    return false;
  }

  /** The scanned box is wide enough: every block position the player overlaps rounds to a
      scanned cell. */
  lemma ScanBoxCoversOverlap(pos: Vec3, p: Vec3)
    requires PlayerOverlaps(pos, p)
    ensures var v := VoxelOf(p); InScanBox(pos, v.x, v.y, v.z)
  {
    var v := VoxelOf(p);
    assert (pos.x - PLAYER_RADIUS - 0.5).Floor as real <= pos.x - PLAYER_RADIUS - 0.5;
    assert pos.x + PLAYER_RADIUS + 1.5 < (pos.x + PLAYER_RADIUS + 1.5).Floor as real + 1.0;
  }

  /** So the scan never misses a block that `get` returns at its own cell: with such a block
      overlapping the player, `collidesPlayerFast` answers true. */
  lemma ScanFindsRegisteredBlock(g: BlockGrid, blocks: seq<Block>, pos: Vec3, b: nat)
    requires IndexesInto(g, |blocks|)
    requires b < |blocks| && blocks[b].active && PlayerOverlaps(pos, blocks[b].position)
    requires var v := VoxelOf(blocks[b].position); g.Get(v.x, v.y, v.z) == b
    ensures exists x, y, z :: InScanBox(pos, x, y, z) && CellHits(g, blocks, pos, x, y, z)
  {
    var v := VoxelOf(blocks[b].position);
    ScanBoxCoversOverlap(pos, blocks[b].position);
    assert CellHits(g, blocks, pos, v.x, v.y, v.z);
  }

  /** `removeBlockFromGrid`: nothing without a grid or for a negative index; otherwise the
      element of the block's rounded cell, if covered, becomes EMPTY and no other element
      changes. */
  method RemoveBlockFromGrid(g: BlockGrid?, blocks: seq<Block>, idx: int)
    requires g != null ==> g.Valid()
    requires idx < |blocks|
    modifies if g != null then {g.data} else {}
    ensures g != null ==> forall i, j, k :: InArray(i, j, k) ==>
      g.data[i, j, k] ==
        if idx >= 0 && VoxelAt(i, j, k) == VoxelOf(blocks[idx].position) then EMPTY
        else old(g.data[i, j, k])
    ensures g != null && idx >= 0 ==>
      var v := VoxelOf(blocks[idx].position); g.Get(v.x, v.y, v.z) == EMPTY
  {
    if g == null || idx < 0 {
      return;
    }
    var s := RemovalSlot(blocks[idx].position);
    if s.Some? {
      g.data[s.value.i, s.value.j, s.value.k] := EMPTY;
    }
  }
}
