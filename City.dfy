/** The world-building helpers of MAIN.cpp as specifications: the cube mesher `genCube`, the
    block lists that `generateStreet` appends, and what every block that `generateBuilding`
    appends looks like. The generators themselves, which push onto the world's block list,
    are methods of World.World. */
module City {
  import opened Types
  import opened Mesh

  /** Block kinds (the `type` tag). */
  const GROUND: int := 0
  const STREET: int := 1
  const BUILDING: int := 2
  const DECORATION: int := 3

  const ASPHALT: Vec3 := Vec3(0.15, 0.15, 0.17)
  const SIDEWALK: Vec3 := Vec3(0.45, 0.43, 0.40)
  const CURB: Vec3 := Vec3(0.35, 0.33, 0.30)
  const YELLOW_LINE: Vec3 := Vec3(0.7, 0.65, 0.1)

  const FRAME: Vec3 := Vec3(0.25, 0.22, 0.20)
  const ROOF: Vec3 := Vec3(0.20, 0.18, 0.16)
  const TRIM: Vec3 := Vec3(0.3, 0.28, 0.25)
  const UNLIT_WINDOW: Vec3 := Vec3(0.08, 0.1, 0.12)
  const ANTENNA_MAST: Vec3 := Vec3(0.3, 0.3, 0.3)
  const ANTENNA_TIP: Vec3 := Vec3(0.8, 0.1, 0.1)

  /** `genCube`: a closed cube of side `size` about pos, all six faces shaded by their
      direction; the 24 vertices and 36 indices are appended after what was there, face f's
      vertices at 4f .. 4f+3 past the old end and its two triangles indexing only those four. */
  method GenCube(pos: Vec3, col: Vec3, size: real, V: seq<Vertex>, I: seq<nat>)
    returns (V': seq<Vertex>, I': seq<nat>)
    ensures ShadedQuads(V, I, V', I', ALL_FACES, CubeCorners(pos, size * 0.5), col)
  {
    var corners := CubeCorners(pos, size * 0.5);
    V', I' := V, I;
    for f := 0 to 6
      invariant ShadedQuads(V, I, V', I', ALL_FACES[..f], corners, col)
    {
      assert ALL_FACES[..f + 1] == ALL_FACES[..f] + [f];
      V', I' := AppendShadedFace(V, I, V', I', ALL_FACES[..f], corners, f, col);
    }
    assert ALL_FACES[..6] == ALL_FACES;
  }

  function IntAbs(v: int): nat {
    if v < 0 then -v else v
  }

  /** The grid column of street cell (i, w): i runs along the street, w across it; dir 0
      runs along +x, any other dir along +z. */
  function StreetPos(startX: int, startZ: int, dir: int, i: int, w: int, y: int): Vec3 {
    var bx := if dir == 0 then startX + i else startX + w;
    var bz := if dir == 0 then startZ + w else startZ + i;
    Vec3(bx as real, y as real, bz as real)
  }

  /** The surface colour of street cell (i, w): curb at the outer columns, sidewalk just
      inside them, a dashed yellow centre line on two rows out of four, asphalt elsewhere. */
  function StreetColor(i: int, w: int, width: int): Vec3 {
    if IntAbs(w) == width then CURB
    else if IntAbs(w) == width - 1 then SIDEWALK
    else if w == 0 && i % 4 < 2 then YELLOW_LINE
    else ASPHALT
  }

  /** The blocks of one street cell: the surface block at y = 0 and, for the curb and
      sidewalk columns, a raised sidewalk block at y = 1. */
  function StreetColumn(startX: int, startZ: int, dir: int, width: int, i: int, w: int): seq<Block> {
    var ground := Block(StreetPos(startX, startZ, dir, i, w, 0), StreetColor(i, w, width), true, STREET);
    if IntAbs(w) >= width - 1 then
      [ground, Block(StreetPos(startX, startZ, dir, i, w, 1), SIDEWALK, true, STREET)]
    else [ground]
  }

  /** The number of cells across a street: w runs over [-width, width]. */
  function RowWidth(width: int): nat {
    if width >= 0 then 2 * width + 1 else 0
  }

  /** The cells w = -width .. -width + n - 1 of row i, in loop order. */
  function StreetRow(startX: int, startZ: int, dir: int, width: int, i: int, n: nat): seq<Block> {
    if n == 0 then []
    else StreetRow(startX, startZ, dir, width, i, n - 1) + StreetColumn(startX, startZ, dir, width, i, -width + n - 1)
  }

  /** The blocks `generateStreet` appends for rows 0 .. rows - 1. */
  function StreetBlocks(startX: int, startZ: int, dir: int, width: int, rows: nat): seq<Block> {
    if rows == 0 then []
    else StreetBlocks(startX, startZ, dir, width, rows - 1) +
         StreetRow(startX, startZ, dir, width, rows - 1, RowWidth(width))
  }

  /** A street block: active, kind 1, at height 0 or 1, and sidewalk-coloured when raised. */
  predicate StreetBlock(b: Block) {
    b.active && b.kind == STREET && (b.position.y == 0.0 || b.position.y == 1.0) &&
    (b.position.y == 1.0 ==> b.color == SIDEWALK)
  }

  lemma {:induction false} StreetRowAreStreet(startX: int, startZ: int, dir: int, width: int, i: int, n: nat)
    ensures forall b :: b in StreetRow(startX, startZ, dir, width, i, n) ==> StreetBlock(b)
  {
    if n > 0 {
      StreetRowAreStreet(startX, startZ, dir, width, i, n - 1);
    }
  }

  /** Every block a street adds is a street block. */
  lemma {:induction false} StreetBlocksAreStreet(startX: int, startZ: int, dir: int, width: int, rows: nat)
    ensures forall b :: b in StreetBlocks(startX, startZ, dir, width, rows) ==> StreetBlock(b)
  {
    if rows > 0 {
      StreetBlocksAreStreet(startX, startZ, dir, width, rows - 1);
      StreetRowAreStreet(startX, startZ, dir, width, rows - 1, RowWidth(width));
    }
  }

  lemma {:induction false} StreetRowCovers(startX: int, startZ: int, dir: int, width: int, i: int,
                                           n: nat, w: int)
    requires -width <= w < -width + n
    ensures forall b :: b in StreetColumn(startX, startZ, dir, width, i, w) ==>
      b in StreetRow(startX, startZ, dir, width, i, n)
  {
    var prev := StreetRow(startX, startZ, dir, width, i, n - 1);
    var last := StreetColumn(startX, startZ, dir, width, i, -width + n - 1);
    assert StreetRow(startX, startZ, dir, width, i, n) == prev + last;
    if w < -width + n - 1 {
      StreetRowCovers(startX, startZ, dir, width, i, n - 1, w);
    }
  }

  /** Every cell (i, w) with i < rows and |w| <= width gets its surface block at y = 0 in
      the street colour, and, exactly for the curb and sidewalk columns, a raised sidewalk
      block at y = 1. */
  lemma {:induction false} StreetCovers(startX: int, startZ: int, dir: int, width: int, rows: nat,
                                        i: int, w: int)
    requires 0 <= i < rows && -width <= w <= width
    ensures Block(StreetPos(startX, startZ, dir, i, w, 0), StreetColor(i, w, width), true, STREET)
      in StreetBlocks(startX, startZ, dir, width, rows)
    ensures IntAbs(w) >= width - 1 ==>
      Block(StreetPos(startX, startZ, dir, i, w, 1), SIDEWALK, true, STREET)
        in StreetBlocks(startX, startZ, dir, width, rows)
  {
    var col := StreetColumn(startX, startZ, dir, width, i, w);
    var prev := StreetBlocks(startX, startZ, dir, width, rows - 1);
    var row := StreetRow(startX, startZ, dir, width, rows - 1, RowWidth(width));
    assert StreetBlocks(startX, startZ, dir, width, rows) == prev + row;
    if i < rows - 1 {
      StreetCovers(startX, startZ, dir, width, rows - 1, i, w);
    } else {
      StreetRowCovers(startX, startZ, dir, width, i, RowWidth(width), w);
      assert col[0] in row;
      if IntAbs(w) >= width - 1 {
        assert col[1] in row;
      }
    }
  }

  lemma {:induction false} StreetRowRaised(startX: int, startZ: int, dir: int, width: int, i: int, n: nat)
    ensures forall b :: b in StreetRow(startX, startZ, dir, width, i, n) && b.position.y == 1.0 ==>
      exists w :: -width <= w < -width + n && IntAbs(w) >= width - 1 &&
        b.position == StreetPos(startX, startZ, dir, i, w, 1)
  {
    if n > 0 {
      StreetRowRaised(startX, startZ, dir, width, i, n - 1);
      var last := -width + n - 1;
      var prev := StreetRow(startX, startZ, dir, width, i, n - 1);
      var col := StreetColumn(startX, startZ, dir, width, i, last);
      assert StreetRow(startX, startZ, dir, width, i, n) == prev + col;
      forall b | b in col && b.position.y == 1.0
        ensures exists w :: (-width <= w < -width + n && IntAbs(w) >= width - 1 &&
                             b.position == StreetPos(startX, startZ, dir, i, w, 1))
      {
        assert b == col[1];
        assert b.position == StreetPos(startX, startZ, dir, i, last, 1);
      }
    }
  }

  /** Every raised block of a street sits over a curb or sidewalk cell of the street. */
  lemma {:induction false} StreetRaised(startX: int, startZ: int, dir: int, width: int, rows: nat)
    ensures forall b :: b in StreetBlocks(startX, startZ, dir, width, rows) && b.position.y == 1.0 ==>
      exists i, w :: 0 <= i < rows && -width <= w <= width && IntAbs(w) >= width - 1 &&
        b.position == StreetPos(startX, startZ, dir, i, w, 1)
  {
    if rows > 0 {
      var prev := StreetBlocks(startX, startZ, dir, width, rows - 1);
      var row := StreetRow(startX, startZ, dir, width, rows - 1, RowWidth(width));
      StreetRaised(startX, startZ, dir, width, rows - 1);
      StreetRowRaised(startX, startZ, dir, width, rows - 1, RowWidth(width));
      assert StreetBlocks(startX, startZ, dir, width, rows) == prev + row;
      forall b: Block | b in prev + row && b.position.y == 1.0
        ensures exists i, w :: (0 <= i < rows && -width <= w <= width && IntAbs(w) >= width - 1 &&
                                b.position == StreetPos(startX, startZ, dir, i, w, 1))
      {
        if b in prev {
          var i, w :| 0 <= i < rows - 1 && -width <= w <= width && IntAbs(w) >= width - 1 &&
            b.position == StreetPos(startX, startZ, dir, i, w, 1);
        } else {
          var w :| -width <= w < -width + RowWidth(width) && IntAbs(w) >= width - 1 &&
            b.position == StreetPos(startX, startZ, dir, rows - 1, w, 1);
        }
      }
    }
  }

  /** Distinct street cells are distinct grid columns. */
  lemma StreetPosInjective(startX: int, startZ: int, dir: int, i: int, w: int, i': int, w': int, y: int)
    requires StreetPos(startX, startZ, dir, i, w, y) == StreetPos(startX, startZ, dir, i', w', y)
    ensures i == i' && w == w'
  {
    var p := StreetPos(startX, startZ, dir, i, w, y);
    var q := StreetPos(startX, startZ, dir, i', w', y);
    assert p.x == q.x && p.z == q.z;
  }

  /** A street cell has a raised block above it exactly when it is a curb or sidewalk
      cell, |w| >= width - 1. */
  lemma RaisedExactlyAtEdges(startX: int, startZ: int, dir: int, width: int, rows: nat, i: int, w: int)
    requires 0 <= i < rows && -width <= w <= width
    ensures (exists b :: b in StreetBlocks(startX, startZ, dir, width, rows) &&
               b.position == StreetPos(startX, startZ, dir, i, w, 1))
            <==> IntAbs(w) >= width - 1
  {
    var blocks := StreetBlocks(startX, startZ, dir, width, rows);
    var p := StreetPos(startX, startZ, dir, i, w, 1);
    if IntAbs(w) >= width - 1 {
      StreetCovers(startX, startZ, dir, width, rows, i, w);
      assert Block(p, SIDEWALK, true, STREET) in blocks;
    } else {
      StreetRaised(startX, startZ, dir, width, rows);
      if b :| b in blocks && b.position == p {
        var i', w' :| 0 <= i' < rows && -width <= w' <= width && IntAbs(w') >= width - 1 &&
          b.position == StreetPos(startX, startZ, dir, i', w', 1);
        StreetPosInjective(startX, startZ, dir, i, w, i', w', 1);
      }
    }
  }

  /** Cell (x, z, y) of a w x d building of h storeys is part of its shell: a wall cell of
      the perimeter or a roof cell, between y = 2 and y = h + 1. */
  predicate ShellCell(x: int, z: int, y: int, w: int, d: int, h: int) {
    0 <= x < w && 0 <= z < d && 2 <= y <= h + 1 &&
    (x == 0 || x == w - 1 || z == 0 || z == d - 1 || y == h + 1)
  }

  /** The four corner columns. */
  predicate CornerColumn(x: int, z: int, w: int, d: int) {
    (x == 0 || x == w - 1) && (z == 0 || z == d - 1)
  }

  /** Window cells: two rows out of every three, and odd interior columns of each wall. */
  predicate WindowCell(x: int, z: int, y: int, w: int, d: int) {
    (y - 2) % 3 != 0 &&
    if x == 0 || x == w - 1 then 0 < z < d - 1 && z % 2 == 1
    else 0 < x < w - 1 && x % 2 == 1
  }

  /** A lit window: the window colour at a brightness in [0.6, 1]. */
  ghost predicate LitWindow(c: Vec3, winCol: Vec3) {
    exists bright :: 0.6 <= bright <= 1.0 && c == winCol.Scale(bright)
  }

  /** The colour a shell cell may get: frame on the corner columns, roof on top, a lit or
      dark window on window cells above the ground storey, trim on every third storey, and
      the wall colour elsewhere. */
  ghost predicate ShellColor(c: Vec3, x: int, z: int, y: int, w: int, d: int, h: int,
                             wallCol: Vec3, winCol: Vec3) {
    if CornerColumn(x, z, w, d) then c == FRAME
    else if y == h + 1 then c == ROOF
    else if y > 2 && WindowCell(x, z, y, w, d) then c == UNLIT_WINDOW || LitWindow(c, winCol)
    else if y > 2 && (y - 2) % 3 == 0 then c == TRIM
    else c == wallCol
  }

  /** A block of the shell of the building at (bx, bz): active, kind 2, on a shell cell, in
      a colour allowed for that cell. */
  ghost predicate BuildingBlock(b: Block, bx: int, bz: int, w: int, d: int, h: int,
                                wallCol: Vec3, winCol: Vec3) {
    b.active && b.kind == BUILDING &&
    exists x, z, y :: ShellCell(x, z, y, w, d, h) &&
      b.position == Vec3((bx + x) as real, y as real, (bz + z) as real) &&
      ShellColor(b.color, x, z, y, w, d, h, wallCol, winCol)
  }

  /** C's `/` on int, which truncates toward zero. */
  function TruncDiv(a: int, b: int): (q: int)
    requires b > 0
    ensures a >= 0 ==> 0 <= q && q * b <= a < q * b + b
    ensures a < 0 ==> q <= 0 && q * b - b < a <= q * b
  {
    var m := if a >= 0 then a else -a;
    DivIsFloor(m, b);
    if a >= 0 then m / b else -(m / b)
  }

  /** For a non-negative dividend, Dafny's quotient is the floor: the largest q with
      q * b <= m. */
  lemma DivIsFloor(m: int, b: int)
    requires m >= 0 && b > 0
    ensures 0 <= m / b && (m / b) * b <= m < (m / b) * b + b
  {
    var q, r := m / b, m % b;
    assert m == q * b + r && 0 <= r < b;
  }

  /** The antenna over the middle column of the roof: five grey mast blocks from y = h + 2
      and a red tip at y = h + 7, all of kind 3. */
  function AntennaBlocks(bx: int, bz: int, w: int, d: int, h: int): (r: seq<Block>)
    ensures |r| == 6
    ensures forall k :: 0 <= k < 6 ==>
      r[k].active && r[k].kind == DECORATION &&
      r[k].position == Vec3((bx + TruncDiv(w, 2)) as real, (h + 2 + k) as real, (bz + TruncDiv(d, 2)) as real) &&
      r[k].color == if k == 5 then ANTENNA_TIP else ANTENNA_MAST
  {
    var ax := bx + TruncDiv(w, 2);
    var az := bz + TruncDiv(d, 2);
    seq(6, k => Block(Vec3(ax as real, (h + 2 + k) as real, az as real),
                      if k == 5 then ANTENNA_TIP else ANTENNA_MAST, true, DECORATION))
  }
}
