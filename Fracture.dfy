/** The block-shattering effect of BLOCK_FRACTURE.cpp: the surface decoration of fragment
    meshes (micro-cracks, rough cut surfaces, dark crack lines along cut edges), the dust and
    chip particles, and the Voronoi-style fracture of a block into convex shards. Every random
    draw comes from the shared generator, in the source's order. */
module Fracture {
  import opened Types
  import opened Mesh
  import opened Clipping
  import opened Physics

  const FRACTURE_MIN_PIECES: int := 7
  const FRACTURE_MAX_PIECES: int := 14
  const MICRO_PARTICLES: int := 25
  const DUST_PARTICLES: int := 40
  const MICRO_SIZE: real := 0.035
  const DUST_SIZE: real := 0.015
  const SECONDARY_FRACTURE_CHANCE: int := 3
  const CRACK_DEPTH_LEVELS: int := 3
  /** Pieces whose volume estimate is below this are dropped. */
  const MIN_PIECE_VOLUME: real := 0.0003

  const UNIT_SCALE: Vec3 := Vec3(1.0, 1.0, 1.0)

  /** `perturbPoint`: p moved by one uniform draw in [-amount, amount] per axis. */
  method PerturbPoint(rng: Rng, p: Vec3, amount: real) returns (q: Vec3)
    requires amount >= 0.0
    modifies rng`drawn
    ensures Within(q, p, amount)
    ensures rng.drawn == old(rng.drawn) + 3
  {
    var dx := rng.Real(-amount, amount);
    var dy := rng.Real(-amount, amount);
    var dz := rng.Real(-amount, amount);
    q := Vec3(p.x + dx, p.y + dy, p.z + dz);
  }

  /** `randomPointInCube`: a point of the cube of half-size halfSize about center; it draws
      exactly as PerturbPoint does. */
  method RandomPointInCube(rng: Rng, center: Vec3, halfSize: real) returns (p: Vec3)
    requires halfSize >= 0.0
    modifies rng`drawn
    ensures Within(p, center, halfSize)
    ensures rng.drawn == old(rng.drawn) + 3
  {
    p := PerturbPoint(rng, center, halfSize);
  }

  /** The average of the vertices of a polygon, accumulated vertex by vertex. */
  method PolygonCenter(face: seq<Vec3>) returns (c: Vec3)
    requires |face| > 0
    ensures c == FaceSum(face).Scale(1.0 / |face| as real)
  {
    var sum := ZERO;
    for k := 0 to |face|
      invariant sum == FaceSum(face[..k])
    {
      assert face[..k + 1][..k] == face[..k];
      sum := sum.Add(face[k]);
    }
    assert face[..|face|] == face;
    c := sum.Scale(1.0 / |face| as real);
  }

  /** What every emitter promises about what it appended to (V0, I0): the buffers only grew,
      new indices name new vertices, and new vertices have valid colours. */
  ghost predicate Decorated(V0: seq<Vertex>, I0: seq<nat>, V: seq<Vertex>, I: seq<nat>) {
    Grown(V0, I0, V, I) && ColoursValid(V, |V0|)
  }

  lemma AppendKeepsDecorated(V0: seq<Vertex>, I0: seq<nat>, V: seq<Vertex>, I: seq<nat>,
                             V': seq<Vertex>, I': seq<nat>)
    requires Decorated(V0, I0, V, I) && Grown(V, I, V', I')
    requires forall k :: |V| <= k < |V'| ==> UnitColor(V'[k].color)
    ensures Decorated(V0, I0, V', I')
  {
    GrownTransitive(V0, I0, V, I, V', I');
    forall k | |V0| <= k < |V'|
      ensures UnitColor(V'[k].color)
    {
      if k < |V| {
        assert V'[k] == V[k];
      }
    }
  }

  /** One quad of uniform normal and valid colour over the corners a, b, c, d. */
  method PushFlatQuad(ghost V0: seq<Vertex>, ghost I0: seq<nat>, V: seq<Vertex>, I: seq<nat>,
                      a: Vec3, b: Vec3, c: Vec3, d: Vec3, n: Vec3, col: Vec3)
    returns (V': seq<Vertex>, I': seq<nat>)
    requires Decorated(V0, I0, V, I) && NormalsAre(V, |V0|, n) && UnitColor(col)
    ensures |V'| == |V| + 4 && |I'| == |I| + 6
    ensures Decorated(V0, I0, V', I') && NormalsAre(V', |V0|, n)
  {
    V', I' := PushQuad(V, I, Vertex(a, n, col), Vertex(b, n, col), Vertex(c, n, col), Vertex(d, n, col));
    AppendKeepsDecorated(V0, I0, V, I, V', I');
    forall k | |V0| <= k < |V'|
      ensures V'[k].normal == n
    {
      if k < |V| {
        assert V'[k] == V[k];
      }
    }
  }

  /** `addMicroCracksToFace`: 2 to 4 cracks, each from a random vertex towards the face
      centre in 3 + depth bent segments drawn as thin dark quads just above the face, with
      at most one side branch per crack when depth > 1. Nothing is drawn for a degenerate face
      or a non-positive depth; otherwise the appended geometry is whole quads (4 vertices,
      6 indices each), at most two per segment, all with the face normal. */
  method AddMicroCracksToFace(rng: Rng, face: seq<Vec3>, center: Vec3, normal: Vec3,
                              color: Vec3, depth: int, V: seq<Vertex>, I: seq<nat>,
                              sqrt: real -> real)
    returns (V': seq<Vertex>, I': seq<nat>)
    modifies rng`drawn
    ensures |face| < 3 || depth <= 0 ==> V' == V && I' == I && rng.drawn == old(rng.drawn)
    ensures Decorated(V, I, V', I') && NormalsAre(V', |V|, normal)
    ensures (|V'| - |V|) % 4 == 0 && (|I'| - |I|) * 2 == (|V'| - |V|) * 3
    ensures depth > 0 ==> |V'| - |V| <= 32 * (3 + depth)
  {
    V', I' := V, I;
    if |face| < 3 || depth <= 0 {
      return;
    }
    var darkColor := color.Scale(0.15);
    var faceCenter := PolygonCenter(face);
    faceCenter := faceCenter.Sub(center);
    var lineWidth := 0.006 / depth as real;
    var offset := normal.Scale(0.001 * depth as real);
    var numCracks := rng.Int(2, 4);
    var segments := 3 + depth;
    ghost var quads := 0;
    for c := 0 to numCracks
      invariant |V'| == |V| + 4 * quads && |I'| == |I| + 6 * quads
      invariant Decorated(V, I, V', I') && NormalsAre(V', |V|, normal)
      invariant quads <= 2 * segments * c
    {
      var si := rng.Int(0, |face| - 1);
      var start := face[si].Sub(center);
      ghost var n;
      V', I', n := AddCrackLine(rng, V, I, V', I', start, faceCenter, normal, darkColor, depth,
                                segments, lineWidth, offset, sqrt);
      assert 2 * segments * (c + 1) == 2 * segments * c + 2 * segments;
      quads := quads + n;
    }
    assert 2 * segments * numCracks <= 2 * segments * 4;
  }

  /** One crack of `addMicroCracksToFace`: a jittered polyline of `segments` steps from start
      towards end, one quad per step whose side direction is long enough, and at the middle
      step of a crack deeper than 1 a possible side branch. */
  method AddCrackLine(rng: Rng, ghost V0: seq<Vertex>, ghost I0: seq<nat>,
                      V: seq<Vertex>, I: seq<nat>, start: Vec3, end: Vec3, normal: Vec3,
                      darkColor: Vec3, depth: int, segments: int, lineWidth: real, offset: Vec3,
                      sqrt: real -> real)
    returns (V': seq<Vertex>, I': seq<nat>, ghost quads: nat)
    requires segments > 0
    requires Decorated(V0, I0, V, I) && NormalsAre(V, |V0|, normal)
    modifies rng`drawn
    ensures |V'| == |V| + 4 * quads && |I'| == |I| + 6 * quads && quads <= 2 * segments
    ensures Decorated(V0, I0, V', I') && NormalsAre(V', |V0|, normal)
  {
    V', I' := V, I;
    quads := 0;
    var prev := start;
    for s := 1 to segments + 1
      invariant |V'| == |V| + 4 * quads && |I'| == |I| + 6 * quads
      invariant Decorated(V0, I0, V', I') && NormalsAre(V', |V0|, normal)
      invariant quads <= 2 * (s - 1)
    {
      var t := s as real / segments as real;
      var jx := rng.Real(-0.08, 0.08);
      var jy := rng.Real(-0.08, 0.08);
      var jz := rng.Real(-0.08, 0.08);
      var curr := Vec3(start.x + (end.x - start.x) * t + jx,
                       start.y + (end.y - start.y) * t + jy,
                       start.z + (end.z - start.z) * t + jz);
      var segDir := Normalized(curr.Sub(prev), sqrt);
      var segNormal := Normalized(Cross(segDir, normal), sqrt);
      if LengthSq(segNormal) < 0.001 {
        continue;
      }
      var cr := rng.Real(-0.03, 0.03);
      var cg := rng.Real(-0.03, 0.03);
      var cb := rng.Real(-0.03, 0.03);
      var crackCol := ClampColor(Vec3(darkColor.x + cr, darkColor.y + cg, darkColor.z + cb));
      var w := segNormal.Scale(lineWidth);
      V', I' := PushFlatQuad(V0, I0, V', I', prev.Sub(w).Add(offset), prev.Add(w).Add(offset),
                             curr.Add(w).Add(offset), curr.Sub(w).Add(offset), normal, crackCol);
      quads := quads + 1;
      if depth > 1 && s == segments / 2 {
        var branch := rng.Int(0, 2);
        if branch == 0 {
          var branchEnd := curr.Add(segNormal.Scale(0.1));
          branchEnd := PerturbPoint(rng, branchEnd, 0.03);
          var bw := lineWidth * 0.6;
          var bDir := Normalized(branchEnd.Sub(curr), sqrt);
          var bNorm := Normalized(Cross(bDir, normal), sqrt);
          if LengthSq(bNorm) > 0.001 {
            var bo := bNorm.Scale(bw);
            V', I' := PushFlatQuad(V0, I0, V', I', curr.Sub(bo).Add(offset), curr.Add(bo).Add(offset),
                                   branchEnd.Add(bo).Add(offset), branchEnd.Sub(bo).Add(offset),
                                   normal, crackCol);
            quads := quads + 1;
          }
        }
      }
      prev := curr;
    }
  }

  /** The indices base, base + 1, ..., base + n - 1. */
  function Consecutive(base: nat, n: nat): (r: seq<nat>)
    ensures |r| == n && forall k :: 0 <= k < n ==> r[k] == base + k
  {
    seq(n, k => base + k)
  }

  /** `addCutSurfaceDetail`: for every edge of a cut face, two rough triangles between the
      edge, its bumped midpoint and points pulled 15% towards the face centre, each with its
      own three fresh vertices: 6 vertices and 6 consecutive indices per edge, all with the
      face normal. A degenerate face gets nothing. */
  method AddCutSurfaceDetail(rng: Rng, face: seq<Vec3>, center: Vec3, normal: Vec3, color: Vec3,
                             V: seq<Vertex>, I: seq<nat>)
    returns (V': seq<Vertex>, I': seq<nat>)
    modifies rng`drawn
    ensures |face| < 3 ==> V' == V && I' == I
    ensures |face| >= 3 ==> |V'| == |V| + 6 * |face| && I' == I + Consecutive(|V|, 6 * |face|)
    ensures Decorated(V, I, V', I') && NormalsAre(V', |V|, normal)
  {
    V', I' := V, I;
    if |face| < 3 {
      return;
    }
    var faceCenter := PolygonCenter(face);
    var offset := normal.Scale(0.001);
    var n := |face|;
    for i := 0 to n
      invariant |V'| == |V| + 6 * i && I' == I + Consecutive(|V|, 6 * i)
      invariant Decorated(V, I, V', I') && NormalsAre(V', |V|, normal)
    {
      var a := face[i].Sub(center);
      var b := face[(i + 1) % n].Sub(center);
      var mid := a.Add(b).Scale(0.5);
      var bump := rng.Real(-0.01, 0.01);
      mid := mid.Add(normal.Scale(bump));
      var fc2 := faceCenter.Sub(center);
      var innerA := a.Add(fc2.Sub(a).Scale(0.15));
      var innerB := b.Add(fc2.Sub(b).Scale(0.15));
      var roughCol := Tint(rng, color, 0.45, 0.04);
      var roughCol2 := Tint(rng, color, 0.55, 0.04);
      ghost var Vs, Is := V', I';
      V', I' := PushEdgeWedge(V, I, V', I', a.Add(offset), mid.Add(offset), b.Add(offset),
                              innerA.Add(offset), innerB.Add(offset), normal, roughCol, roughCol2);
      assert I' == I + Consecutive(|V|, 6 * (i + 1)) by {
        assert I' == Is + Consecutive(|Vs|, 6);
      }
    }
  }

  /** A jittered shade of `color`: the colour darkened by `k`, each channel shifted by a
      draw in [-j, j] (three draws, x then y then z) and clamped to [0, 1]. */
  method Tint(rng: Rng, color: Vec3, k: real, j: real) returns (c: Vec3)
    requires j >= 0.0
    modifies rng`drawn
    ensures rng.drawn == old(rng.drawn) + 3
    ensures UnitColor(c)
    ensures Within(c, ClampColor(color.Scale(k)), j)
  {
    var r1 := rng.Real(-j, j);
    var r2 := rng.Real(-j, j);
    var r3 := rng.Real(-j, j);
    var dark := color.Scale(k);
    c := ClampColor(Vec3(dark.x + r1, dark.y + r2, dark.z + r3));
    ClampNear(dark.x, r1, j);
    ClampNear(dark.y, r2, j);
    ClampNear(dark.z, r3, j);
  }

  /** Clamping to [0, 1] moves two values no further apart: a jitter of at most e stays at
      most e after the clamp. */
  lemma ClampNear(v: real, r: real, e: real)
    requires -e <= r <= e
    ensures Clamp(v, 0.0, 1.0) - e <= Clamp(v + r, 0.0, 1.0) <= Clamp(v, 0.0, 1.0) + e
  {
  }

  /** The two rough triangles of one edge of a cut face: (a, mid, innerA) and
      (mid, b, innerB), with the edge's two shades alternating. */
  method PushEdgeWedge(ghost V0: seq<Vertex>, ghost I0: seq<nat>, V: seq<Vertex>, I: seq<nat>,
                       a: Vec3, mid: Vec3, b: Vec3, innerA: Vec3, innerB: Vec3, n: Vec3,
                       col: Vec3, col2: Vec3)
    returns (V': seq<Vertex>, I': seq<nat>)
    requires Decorated(V0, I0, V, I) && NormalsAre(V, |V0|, n) && UnitColor(col) && UnitColor(col2)
    ensures V' == V + [Vertex(a, n, col), Vertex(mid, n, col2), Vertex(innerA, n, col),
                       Vertex(mid, n, col2), Vertex(b, n, col), Vertex(innerB, n, col2)]
    ensures I' == I + Consecutive(|V|, 6)
    ensures Decorated(V0, I0, V', I') && NormalsAre(V', |V0|, n)
  {
    var V1, I1 := PushTriangle(V, I, Vertex(a, n, col), Vertex(mid, n, col2), Vertex(innerA, n, col));
    V', I' := PushTriangle(V1, I1, Vertex(mid, n, col2), Vertex(b, n, col), Vertex(innerB, n, col2));
    GrownTransitive(V, I, V1, I1, V', I');
    AppendKeepsDecorated(V0, I0, V, I, V', I');
    forall k | |V0| <= k < |V'|
      ensures V'[k].normal == n
    {
      if k < |V| {
        assert V'[k] == V[k];
      }
    }
    assert I' == I + Consecutive(|V|, 6);
  }

  lemma DecoratedTransitive(V0: seq<Vertex>, I0: seq<nat>, V1: seq<Vertex>, I1: seq<nat>,
                            V2: seq<Vertex>, I2: seq<nat>)
    requires Decorated(V0, I0, V1, I1) && Decorated(V1, I1, V2, I2)
    ensures Decorated(V0, I0, V2, I2)
  {
    AppendKeepsDecorated(V0, I0, V1, I1, V2, I2);
  }

  /** The number of vertices of the first k faces that have at least 3 of them. */
  function ProperPoints(faces: seq<seq<Vec3>>, k: nat): nat
    requires k <= |faces|
  {
    if k == 0 then 0
    else ProperPoints(faces, k - 1) + (if |faces[k - 1]| >= 3 then |faces[k - 1]| else 0)
  }

  /** A shape with a face, all of whose faces have at least 3 vertices, has vertices to
      mesh. */
  lemma ProperFacesHavePoints(faces: seq<seq<Vec3>>)
    requires |faces| > 0 && forall m :: 0 <= m < |faces| ==> |faces[m]| >= 3
    ensures ProperPoints(faces, |faces|) >= 3
  {
  }

  /** The number of edges of the first k faces that are proper cut faces. */
  function CutEdges(s: ConvexShape, k: nat): nat
    requires k <= |s.faces|
  {
    if k == 0 then 0
    else
      var f := k - 1;
      CutEdges(s, f) + (if f < |s.isCut| && s.isCut[f] && |s.faces[f]| >= 3 then |s.faces[f]| else 0)
  }

  /** `shapeToMesh`: every face of at least 3 vertices becomes a fan of vertices translated
      by -center, shaded by its direction and, for a cut face, darkened and decorated with a
      rough surface and three levels of micro-cracks; an original face gets one level of
      micro-cracks with probability 1/4. At least one vertex per face vertex is emitted, all
      new colours are valid, and a shape without a proper face emits nothing and draws
      nothing. */
  method ShapeToMesh(rng: Rng, shape: ConvexShape, center: Vec3, color: Vec3,
                     V: seq<Vertex>, I: seq<nat>, sqrt: real -> real)
    returns (V': seq<Vertex>, I': seq<nat>)
    modifies rng`drawn
    ensures Decorated(V, I, V', I')
    ensures |V'| >= |V| + ProperPoints(shape.faces, |shape.faces|)
    ensures ProperPoints(shape.faces, |shape.faces|) > 0 ==> |I'| >= |I| + 3
    ensures ProperPoints(shape.faces, |shape.faces|) == 0 ==>
      V' == V && I' == I && rng.drawn == old(rng.drawn)
  {
    V', I' := V, I;
    for fi := 0 to |shape.faces|
      invariant Decorated(V, I, V', I')
      invariant |V'| >= |V| + ProperPoints(shape.faces, fi)
      invariant ProperPoints(shape.faces, fi) > 0 ==> |I'| >= |I| + 3
      invariant ProperPoints(shape.faces, fi) == 0 ==>
        V' == V && I' == I && rng.drawn == old(rng.drawn)
    {
      var face := shape.faces[fi];
      if |face| >= 3 {
        var isCut := fi < |shape.isCut| && shape.isCut[fi];
        var normal := FaceNormalOf(face, sqrt);
        var shade := Shade(normal);
        var fc: Vec3;
        if isCut {
          var c1 := rng.Real(-0.03, 0.03);
          var c2 := rng.Real(-0.03, 0.03);
          var c3 := rng.Real(-0.03, 0.03);
          fc := ClampColor(Vec3(color.x * shade * 0.55 + c1, color.y * shade * 0.55 + c2,
                                color.z * shade * 0.55 + c3));
        } else {
          var c1 := rng.Real(-0.015, 0.015);
          var c2 := rng.Real(-0.015, 0.015);
          var c3 := rng.Real(-0.015, 0.015);
          fc := ClampColor(Vec3(color.x * shade + c1, color.y * shade + c2, color.z * shade + c3));
        }
        ghost var Vs, Is := V', I';
        V', I' := AppendFan(V', I', face, center, normal, fc);
        forall k | |Vs| <= k < |V'|
          ensures UnitColor(V'[k].color)
        {
          assert V'[|Vs| + (k - |Vs|)] == Vertex(face[k - |Vs|].Sub(center), normal, fc);
        }
        AppendKeepsDecorated(V, I, Vs, Is, V', I');
        if isCut {
          ghost var Vd, Id := V', I';
          V', I' := AddCutSurfaceDetail(rng, face, center, normal, color, V', I');
          DecoratedTransitive(V, I, Vd, Id, V', I');
          for d := 1 to CRACK_DEPTH_LEVELS + 1
            invariant Decorated(V, I, V', I') && |V'| >= |Vs| + |face| && |I'| >= |Is| + 3
          {
            ghost var Vc, Ic := V', I';
            V', I' := AddMicroCracksToFace(rng, face, center, normal, color, d, V', I', sqrt);
            DecoratedTransitive(V, I, Vc, Ic, V', I');
          }
        } else {
          var surfCrack := rng.Int(0, 3);
          if surfCrack == 0 {
            ghost var Vc, Ic := V', I';
            V', I' := AddMicroCracksToFace(rng, face, center, normal, color, 1, V', I', sqrt);
            DecoratedTransitive(V, I, Vc, Ic, V', I');
          }
        }
      }
    }
  }

  /** The normal of a face of at least 3 vertices, from its first three. */
  function FaceNormalOf(face: seq<Vec3>, sqrt: real -> real): Vec3
    requires |face| >= 3
  {
    Normalized(Cross(face[1].Sub(face[0]), face[2].Sub(face[0])), sqrt)
  }

  /** The vertex after i in a cycle of n, that is (i + 1) mod n, written without the
      division. */
  function Next(i: nat, n: nat): nat
    requires i < n
  {
    if i + 1 < n then i + 1 else 0
  }

  /** The unit direction, within the face, across edge i (from vertex i to the next one,
      cyclically), taken relative to center. */
  function EdgeNormal(face: seq<Vec3>, i: nat, center: Vec3, faceNormal: Vec3,
                      sqrt: real -> real): Vec3
    requires i < |face|
  {
    var a := face[i].Sub(center);
    var b := face[Next(i, |face|)].Sub(center);
    Normalized(Cross(Normalized(b.Sub(a), sqrt), faceNormal), sqrt)
  }

  /** Edge i gets an edge line: its in-face normal did not degenerate. */
  predicate Traced(face: seq<Vec3>, i: nat, center: Vec3, faceNormal: Vec3, sqrt: real -> real)
    requires i < |face|
  {
    LengthSq(EdgeNormal(face, i, center, faceNormal, sqrt)) >= 0.001
  }

  /** The line of edge i: a quad 0.01 wide around the edge, shifted by offset, with the
      face's normal and the dark colour, corners in the order a-e, a+e, b+e, b-e. */
  function CrackQuad(face: seq<Vec3>, i: nat, center: Vec3, faceNormal: Vec3, offset: Vec3,
                     darkColor: Vec3, sqrt: real -> real): seq<Vertex>
    requires i < |face|
  {
    var a := face[i].Sub(center);
    var b := face[Next(i, |face|)].Sub(center);
    var e := EdgeNormal(face, i, center, faceNormal, sqrt).Scale(0.005);
    [Vertex(a.Sub(e).Add(offset), faceNormal, darkColor),
     Vertex(a.Add(e).Add(offset), faceNormal, darkColor),
     Vertex(b.Add(e).Add(offset), faceNormal, darkColor),
     Vertex(b.Sub(e).Add(offset), faceNormal, darkColor)]
  }

  /** The line of edge i, or nothing when its in-face normal degenerates. */
  function EdgeLine(face: seq<Vec3>, i: nat, center: Vec3, faceNormal: Vec3, offset: Vec3,
                    darkColor: Vec3, sqrt: real -> real): seq<Vertex>
    requires i < |face|
  {
    if Traced(face, i, center, faceNormal, sqrt)
    then CrackQuad(face, i, center, faceNormal, offset, darkColor, sqrt) else []
  }

  /** lines holds the lines of the first k edges of a face, edge by edge. The quantifier
      only fires on an EdgeLine term, so an edge's geometry is unfolded only where that
      edge is named. */
  ghost predicate LinesUpTo(face: seq<Vec3>, center: Vec3, faceNormal: Vec3, offset: Vec3,
                            darkColor: Vec3, sqrt: real -> real, lines: seq<seq<Vertex>>, k: nat)
  {
    k <= |face| && |lines| == k &&
    forall i {:trigger EdgeLine(face, i, center, faceNormal, offset, darkColor, sqrt)} ::
      0 <= i < k ==> lines[i] == EdgeLine(face, i, center, faceNormal, offset, darkColor, sqrt)
  }

  /** The lines of the first k edges are determined by the face. */
  lemma LinesUnique(face: seq<Vec3>, center: Vec3, faceNormal: Vec3, offset: Vec3,
                    darkColor: Vec3, sqrt: real -> real, l1: seq<seq<Vertex>>,
                    l2: seq<seq<Vertex>>, k: nat)
    requires LinesUpTo(face, center, faceNormal, offset, darkColor, sqrt, l1, k)
    requires LinesUpTo(face, center, faceNormal, offset, darkColor, sqrt, l2, k)
    ensures l1 == l2
  {
    forall i | 0 <= i < k
      ensures l1[i] == l2[i]
    {
      assert l1[i] == EdgeLine(face, i, center, faceNormal, offset, darkColor, sqrt);
    }
  }

  /** The lines of the first i edges, followed by the line of edge i, are those of the
      first i + 1 edges. */
  lemma LinesExtend(face: seq<Vec3>, center: Vec3, faceNormal: Vec3, offset: Vec3,
                    darkColor: Vec3, sqrt: real -> real, lines: seq<seq<Vertex>>, i: nat,
                    line: seq<Vertex>)
    requires i < |face| && LinesUpTo(face, center, faceNormal, offset, darkColor, sqrt, lines, i)
    requires line == EdgeLine(face, i, center, faceNormal, offset, darkColor, sqrt)
    ensures LinesUpTo(face, center, faceNormal, offset, darkColor, sqrt, lines + [line], i + 1)
  {
    var lines' := lines + [line];
    forall j | 0 <= j < i + 1
      ensures lines'[j] == EdgeLine(face, j, center, faceNormal, offset, darkColor, sqrt)
    {
      if j < i {
        assert lines'[j] == lines[j];
      }
    }
  }

  /** Line i of a face is the quad of edge i when that edge is traced, and nothing
      otherwise. */
  lemma LineAt(face: seq<Vec3>, center: Vec3, faceNormal: Vec3, offset: Vec3,
               darkColor: Vec3, sqrt: real -> real, lines: seq<seq<Vertex>>, k: nat, i: nat)
    requires LinesUpTo(face, center, faceNormal, offset, darkColor, sqrt, lines, k) && i < k
    ensures lines[i] ==
      if Traced(face, i, center, faceNormal, sqrt)
      then CrackQuad(face, i, center, faceNormal, offset, darkColor, sqrt) else []
  {
    assert lines[i] == EdgeLine(face, i, center, faceNormal, offset, darkColor, sqrt);
  }

  /** The first k lines, one after the other. */
  function Joined(lines: seq<seq<Vertex>>, k: nat): seq<Vertex>
    requires k <= |lines|
  {
    if k == 0 then [] else Joined(lines, k - 1) + lines[k - 1]
  }

  /** How many of the first k lines are drawn (not empty); never more than k. */
  function Drawn(lines: seq<seq<Vertex>>, k: nat): (r: nat)
    requires k <= |lines|
    ensures r <= k
  {
    if k == 0 then 0 else Drawn(lines, k - 1) + (if lines[k - 1] == [] then 0 else 1)
  }

  /** Every line is a quad or nothing. */
  ghost predicate QuadsOrNothing(lines: seq<seq<Vertex>>) {
    forall j :: 0 <= j < |lines| ==> |lines[j]| == 0 || |lines[j]| == 4
  }

  /** Every vertex of every line has colour col. */
  ghost predicate LinesColoured(lines: seq<seq<Vertex>>, col: Vec3) {
    forall j, m :: 0 <= j < |lines| && 0 <= m < |lines[j]| ==> lines[j][m].color == col
  }

  lemma {:induction false} JoinedLength(lines: seq<seq<Vertex>>, k: nat)
    requires k <= |lines| && QuadsOrNothing(lines)
    ensures |Joined(lines, k)| == 4 * Drawn(lines, k)
  {
    if k > 0 {
      JoinedLength(lines, k - 1);
    }
  }

  /** Lines are only ever appended: the first j lines begin the first k. */
  lemma {:induction false} JoinedPrefix(lines: seq<seq<Vertex>>, j: nat, k: nat)
    requires j <= k <= |lines|
    ensures Joined(lines, j) <= Joined(lines, k)
  {
    if j < k {
      JoinedPrefix(lines, j, k - 1);
    }
  }

  /** Lines after the first k do not change the first k joined or counted. */
  lemma {:induction false} JoinedSame(lines: seq<seq<Vertex>>, more: seq<seq<Vertex>>, k: nat)
    requires k <= |lines|
    ensures Joined(lines + more, k) == Joined(lines, k)
    ensures Drawn(lines + more, k) == Drawn(lines, k)
  {
    if k > 0 {
      JoinedSame(lines, more, k - 1);
      assert (lines + more)[k - 1] == lines[k - 1];
    }
  }

  /** When every line is drawn, so are all k of them. */
  lemma {:induction false} AllDrawn(lines: seq<seq<Vertex>>, k: nat)
    requires k <= |lines| && forall j :: 0 <= j < k ==> lines[j] != []
    ensures Drawn(lines, k) == k
  {
    if k > 0 {
      AllDrawn(lines, k - 1);
    }
  }

  /** Line i sits in the joined lines right after the lines before it. */
  lemma JoinedAt(lines: seq<seq<Vertex>>, i: nat)
    requires i < |lines|
    ensures var p := |Joined(lines, i)|;
      p + |lines[i]| <= |Joined(lines, |lines|)| &&
      Joined(lines, |lines|)[p .. p + |lines[i]|] == lines[i]
  {
    JoinedPrefix(lines, i + 1, |lines|);
    assert Joined(lines, i + 1) == Joined(lines, i) + lines[i];
  }

  /** The lines of a face are quads or nothing, all in the dark colour. */
  lemma LinesShape(face: seq<Vec3>, center: Vec3, faceNormal: Vec3, offset: Vec3,
                   darkColor: Vec3, sqrt: real -> real, lines: seq<seq<Vertex>>, k: nat)
    requires LinesUpTo(face, center, faceNormal, offset, darkColor, sqrt, lines, k)
    ensures QuadsOrNothing(lines) && LinesColoured(lines, darkColor)
  {
    forall j | 0 <= j < |lines|
      ensures (|lines[j]| == 0 || |lines[j]| == 4) &&
        forall m :: 0 <= m < |lines[j]| ==> lines[j][m].color == darkColor
    {
      LineAt(face, center, faceNormal, offset, darkColor, sqrt, lines, k, j);
    }
  }

  /** A traced edge's quad sits in the joined lines right after the quads of the traced
      edges before it. */
  lemma FaceCracksAt(face: seq<Vec3>, center: Vec3, faceNormal: Vec3, offset: Vec3,
                     darkColor: Vec3, sqrt: real -> real, lines: seq<seq<Vertex>>, i: nat)
    requires LinesUpTo(face, center, faceNormal, offset, darkColor, sqrt, lines, |face|)
    requires i < |face| && Traced(face, i, center, faceNormal, sqrt)
    ensures var t := Drawn(lines, i);
      4 * t + 4 <= |Joined(lines, |face|)| &&
      Joined(lines, |face|)[4 * t .. 4 * t + 4] ==
        CrackQuad(face, i, center, faceNormal, offset, darkColor, sqrt)
  {
    LinesShape(face, center, faceNormal, offset, darkColor, sqrt, lines, |face|);
    JoinedLength(lines, i);
    JoinedAt(lines, i);
    LineAt(face, center, faceNormal, offset, darkColor, sqrt, lines, |face|, i);
  }

  /** When no edge's in-face normal degenerates, every edge of the face gets its line. */
  lemma AllEdgesTraced(face: seq<Vec3>, center: Vec3, faceNormal: Vec3, offset: Vec3,
                       darkColor: Vec3, sqrt: real -> real, lines: seq<seq<Vertex>>)
    requires LinesUpTo(face, center, faceNormal, offset, darkColor, sqrt, lines, |face|)
    requires forall i :: 0 <= i < |face| ==> Traced(face, i, center, faceNormal, sqrt)
    ensures Drawn(lines, |face|) == |face|
  {
    forall j | 0 <= j < |face|
      ensures lines[j] != []
    {
      LineAt(face, center, faceNormal, offset, darkColor, sqrt, lines, |face|, j);
    }
    AllDrawn(lines, |face|);
  }

  /** One edge of `addFaceEdgeCracks`: the dark quad of edge i when its in-face normal does
      not degenerate, nothing otherwise; line is that edge's line. */
  method TraceEdge(face: seq<Vec3>, i: nat, center: Vec3, faceNormal: Vec3, offset: Vec3,
                   darkColor: Vec3, V: seq<Vertex>, I: seq<nat>, sqrt: real -> real,
                   ghost lines: seq<seq<Vertex>>)
    returns (V': seq<Vertex>, I': seq<nat>, traced: bool, ghost line: seq<Vertex>)
    requires i < |face| && LinesUpTo(face, center, faceNormal, offset, darkColor, sqrt, lines, i)
    ensures LinesUpTo(face, center, faceNormal, offset, darkColor, sqrt, lines + [line], i + 1)
    ensures V' == V + line && traced == (line != [])
    ensures |line| == 0 || |line| == 4
    ensures forall m :: 0 <= m < |line| ==> line[m].color == darkColor
    ensures I' == if traced then I + QuadAt(|V|) else I
  {
    line := EdgeLine(face, i, center, faceNormal, offset, darkColor, sqrt);
    LinesExtend(face, center, faceNormal, offset, darkColor, sqrt, lines, i, line);
    traced := Traced(face, i, center, faceNormal, sqrt);
    V', I' := V, I;
    if traced {
      var quad := CrackQuad(face, i, center, faceNormal, offset, darkColor, sqrt);
      V', I' := PushQuad(V', I', quad[0], quad[1], quad[2], quad[3]);
      assert quad == [quad[0], quad[1], quad[2], quad[3]];
    }
  }

  /** One more line extends the joined lines by itself and the count by one when drawn. */
  lemma JoinedSnoc(lines: seq<seq<Vertex>>, line: seq<Vertex>)
    ensures Joined(lines + [line], |lines| + 1) == Joined(lines, |lines|) + line
    ensures Drawn(lines + [line], |lines| + 1) ==
      Drawn(lines, |lines|) + (if line == [] then 0 else 1)
  {
    JoinedSame(lines, [line], |lines|);
    assert (lines + [line])[|lines|] == line;
  }

  /** One more quad or nothing in colour col keeps the lines quads or nothing in col. */
  lemma LinesSnoc(lines: seq<seq<Vertex>>, line: seq<Vertex>, col: Vec3)
    requires QuadsOrNothing(lines) && LinesColoured(lines, col)
    requires |line| == 0 || |line| == 4
    requires forall m :: 0 <= m < |line| ==> line[m].color == col
    ensures QuadsOrNothing(lines + [line]) && LinesColoured(lines + [line], col)
  {
    var lines' := lines + [line];
    forall j | 0 <= j < |lines'|
      ensures lines'[j] == if j < |lines| then lines[j] else line
    {
    }
  }

  /** Appending one more line extends the joined lines by one step. */
  lemma JoinedStep(V: seq<Vertex>, Vs: seq<Vertex>, V': seq<Vertex>, lines: seq<seq<Vertex>>,
                   line: seq<Vertex>, q: nat)
    requires Vs == V + Joined(lines, |lines|) && q == Drawn(lines, |lines|)
    requires V' == Vs + line
    ensures V' == V + Joined(lines + [line], |lines| + 1)
    ensures Drawn(lines + [line], |lines| + 1) == q + (if line == [] then 0 else 1)
  {
    JoinedSnoc(lines, line);
    AppendAssoc(V, Joined(lines, |lines|), line);
  }

  lemma AppendAssoc<T>(a: seq<T>, b: seq<T>, c: seq<T>)
    ensures (a + b) + c == a + (b + c)
  {
  }

  /** The triangles of one more quad, at b just after the first q quads from base, or of
      none, extend the quad indices by one step. */
  lemma IndicesStep(I: seq<nat>, Is: seq<nat>, I': seq<nat>, base: nat, b: nat, q: nat,
                    q': nat, drawn: bool)
    requires Is == I + QuadIndices(base, q) && b == base + 4 * q
    requires !drawn ==> q' == q && I' == Is
    requires drawn ==> q' == q + 1 && I' == Is + QuadAt(b)
    ensures I' == I + QuadIndices(base, q')
  {
    if drawn {
      QuadIndicesSnoc(I, Is, I', base, q);
    }
  }

  /** The edge lines of one cut face: for each edge whose in-face normal is long enough, one
      dark quad pushed just off the face, with the usual two triangles; no draw is made.
      lines are the edges' lines, edge by edge. */
  method AddFaceEdgeCracks(face: seq<Vec3>, center: Vec3, faceNormal: Vec3, offset: Vec3,
                           darkColor: Vec3, V: seq<Vertex>, I: seq<nat>, sqrt: real -> real)
    returns (V': seq<Vertex>, I': seq<nat>, ghost lines: seq<seq<Vertex>>, ghost quads: nat)
    ensures LinesUpTo(face, center, faceNormal, offset, darkColor, sqrt, lines, |face|)
    ensures V' == V + Joined(lines, |face|) && quads == Drawn(lines, |face|)
    ensures I' == I + QuadIndices(|V|, quads)
    ensures |V'| == |V| + 4 * quads && |I'| == |I| + 6 * quads && quads <= |face|
    ensures Grown(V, I, V', I')
    ensures forall k :: |V| <= k < |V'| ==> V'[k].color == darkColor
  {
    V', I' := V, I;
    quads := 0;
    lines := [];
    for i := 0 to |face|
      invariant LinesUpTo(face, center, faceNormal, offset, darkColor, sqrt, lines, i)
      invariant QuadsOrNothing(lines) && LinesColoured(lines, darkColor)
      invariant V' == V + Joined(lines, |lines|) && quads == Drawn(lines, |lines|)
      invariant I' == I + QuadIndices(|V|, quads)
    {
      ghost var Vs, Is, q, ls := V', I', quads, lines;
      var traced;
      ghost var line;
      V', I', traced, line := TraceEdge(face, i, center, faceNormal, offset, darkColor,
                                        V', I', sqrt, lines);
      if traced {
        quads := quads + 1;
      }
      lines := lines + [line];
      JoinedLength(ls, |ls|);
      JoinedStep(V, Vs, V', ls, line, q);
      IndicesStep(I, Is, I', |V|, |Vs|, q, quads, traced);
      LinesSnoc(ls, line, darkColor);
    }
    JoinedQuads(V, I, V', I', lines, quads, darkColor);
  }

  /** Appending all lines, each a quad or nothing, with the triangles of the drawn ones,
      grows the mesh by whole quads in the lines' colour. */
  lemma JoinedQuads(V: seq<Vertex>, I: seq<nat>, V': seq<Vertex>, I': seq<nat>,
                    lines: seq<seq<Vertex>>, quads: nat, col: Vec3)
    requires QuadsOrNothing(lines) && LinesColoured(lines, col)
    requires V' == V + Joined(lines, |lines|) && quads == Drawn(lines, |lines|)
    requires I' == I + QuadIndices(|V|, quads)
    ensures |V'| == |V| + 4 * quads && |I'| == |I| + 6 * quads && quads <= |lines|
    ensures Grown(V, I, V', I')
    ensures forall k :: |V| <= k < |V'| ==> V'[k].color == col
  {
    JoinedLength(lines, |lines|);
    QuadIndicesWithin(|V|, quads);
    JoinedColoured(lines, |lines|, col);
    forall k | |V| <= k < |V'|
      ensures V'[k].color == col
    {
      assert V'[k] == Joined(lines, |lines|)[k - |V|];
    }
  }

  /** Every vertex of the joined lines has colour col when every line's vertices do. */
  lemma {:induction false} JoinedColoured(lines: seq<seq<Vertex>>, k: nat, col: Vec3)
    requires k <= |lines| && LinesColoured(lines, col)
    ensures forall m :: 0 <= m < |Joined(lines, k)| ==> Joined(lines, k)[m].color == col
  {
    if k > 0 {
      JoinedColoured(lines, k - 1, col);
      assert Joined(lines, k) == Joined(lines, k - 1) + lines[k - 1];
    }
  }

  /** Face f of a shape is a cut face with at least 3 vertices, which gets edge lines. */
  predicate ProperCut(s: ConvexShape, f: nat)
    requires f < |s.faces|
  {
    f < |s.isCut| && s.isCut[f] && |s.faces[f]| >= 3
  }

  /** lines are the edge lines of face f when it is a proper cut face, drawn 0.002 above it
      along its normal, and nothing for any other face. */
  ghost predicate FaceLinesOf(s: ConvexShape, f: nat, center: Vec3, darkColor: Vec3,
                              sqrt: real -> real, lines: seq<seq<Vertex>>)
    requires f < |s.faces|
  {
    if ProperCut(s, f) then
      var n := FaceNormalOf(s.faces[f], sqrt);
      LinesUpTo(s.faces[f], center, n, n.Scale(0.002), darkColor, sqrt, lines, |s.faces[f]|)
    else lines == []
  }

  /** all holds the edge lines of the first k faces of s, face by face. */
  ghost predicate ShapeLinesUpTo(s: ConvexShape, center: Vec3, darkColor: Vec3,
                                 sqrt: real -> real, all: seq<seq<seq<Vertex>>>, k: nat)
  {
    k <= |s.faces| && |all| == k &&
    forall f {:trigger FaceLinesOf(s, f, center, darkColor, sqrt, all[f])} ::
      0 <= f < k ==> FaceLinesOf(s, f, center, darkColor, sqrt, all[f])
  }

  /** The lines of the first f faces, followed by those of face f, are those of the first
      f + 1 faces. */
  lemma ShapeLinesExtend(s: ConvexShape, center: Vec3, darkColor: Vec3, sqrt: real -> real,
                         all: seq<seq<seq<Vertex>>>, f: nat, lines: seq<seq<Vertex>>)
    requires f < |s.faces| && ShapeLinesUpTo(s, center, darkColor, sqrt, all, f)
    requires FaceLinesOf(s, f, center, darkColor, sqrt, lines)
    ensures ShapeLinesUpTo(s, center, darkColor, sqrt, all + [lines], f + 1)
  {
    var all' := all + [lines];
    forall g | 0 <= g < f + 1
      ensures FaceLinesOf(s, g, center, darkColor, sqrt, all'[g])
    {
      if g < f {
        assert all'[g] == all[g];
        assert FaceLinesOf(s, g, center, darkColor, sqrt, all[g]);
      } else {
        assert all'[g] == lines;
      }
    }
  }

  /** One face of `addEdgeCracks`: the edge lines of a proper cut face, 0.002 above it along
      its normal; nothing for any other face. */
  method AddFaceLines(shape: ConvexShape, fi: nat, center: Vec3, darkColor: Vec3,
                      V: seq<Vertex>, I: seq<nat>, sqrt: real -> real,
                      ghost all: seq<seq<seq<Vertex>>>)
    returns (V': seq<Vertex>, I': seq<nat>, ghost lines: seq<seq<Vertex>>, ghost n: nat)
    requires fi < |shape.faces| && ShapeLinesUpTo(shape, center, darkColor, sqrt, all, fi)
    ensures ShapeLinesUpTo(shape, center, darkColor, sqrt, all + [lines], fi + 1)
    ensures V' == V + Joined(lines, |lines|) && n == Drawn(lines, |lines|)
    ensures I' == I + QuadIndices(|V|, n)
    ensures |V'| == |V| + 4 * n && |I'| == |I| + 6 * n
    ensures CutEdges(shape, fi + 1) == CutEdges(shape, fi) + (if ProperCut(shape, fi) then |shape.faces[fi]| else 0)
    ensures n <= CutEdges(shape, fi + 1) - CutEdges(shape, fi)
    ensures Grown(V, I, V', I')
    ensures forall k :: |V| <= k < |V'| ==> V'[k].color == darkColor
  {
    var face := shape.faces[fi];
    V', I', lines, n := V, I, [], 0;
    if fi < |shape.isCut| && shape.isCut[fi] && |face| >= 3 {
      var faceNormal := FaceNormalOf(face, sqrt);
      var offset := faceNormal.Scale(0.002);
      V', I', lines, n := AddFaceEdgeCracks(face, center, faceNormal, offset, darkColor, V, I, sqrt);
    }
    ShapeLinesExtend(shape, center, darkColor, sqrt, all, fi, lines);
  }

  /** The lines of the first k faces, face after face. */
  function Cracks(all: seq<seq<seq<Vertex>>>, k: nat): seq<Vertex>
    requires k <= |all|
  {
    if k == 0 then [] else Cracks(all, k - 1) + Joined(all[k - 1], |all[k - 1]|)
  }

  /** The number of lines drawn for the first k faces. */
  function CrackCount(all: seq<seq<seq<Vertex>>>, k: nat): nat
    requires k <= |all|
  {
    if k == 0 then 0 else CrackCount(all, k - 1) + Drawn(all[k - 1], |all[k - 1]|)
  }

  /** Faces after the first k do not change the lines of the first k. */
  lemma {:induction false} CracksSame(all: seq<seq<seq<Vertex>>>, more: seq<seq<seq<Vertex>>>,
                                      k: nat)
    requires k <= |all|
    ensures Cracks(all + more, k) == Cracks(all, k)
    ensures CrackCount(all + more, k) == CrackCount(all, k)
  {
    if k > 0 {
      CracksSame(all, more, k - 1);
      assert (all + more)[k - 1] == all[k - 1];
    }
  }

  /** The lines of one more face extend the lines of the faces before it. */
  lemma CracksStep(all: seq<seq<seq<Vertex>>>, lines: seq<seq<Vertex>>, V: seq<Vertex>,
                   Vs: seq<Vertex>, V': seq<Vertex>, q: nat, n: nat)
    requires Vs == V + Cracks(all, |all|) && q == CrackCount(all, |all|)
    requires V' == Vs + Joined(lines, |lines|) && n == Drawn(lines, |lines|)
    ensures V' == V + Cracks(all + [lines], |all| + 1)
    ensures CrackCount(all + [lines], |all| + 1) == q + n
  {
    CracksSame(all, [lines], |all|);
    assert (all + [lines])[|all|] == lines;
    AppendAssoc(V, Cracks(all, |all|), Joined(lines, |lines|));
  }

  /** The triangles of n more quads at b, just after the first q quads from base, extend the
      quad indices to q' == q + n quads. */
  lemma IndicesThen(I: seq<nat>, Is: seq<nat>, I': seq<nat>, base: nat, b: nat, q: nat,
                    n: nat, q': nat)
    requires Is == I + QuadIndices(base, q) && b == base + 4 * q && q' == q + n
    requires I' == Is + QuadIndices(b, n)
    ensures I' == I + QuadIndices(base, q')
  {
    QuadIndicesThen(I, Is, I', base, q, b, n);
  }

  /** Dropping the last face's lines leaves the lines of the faces before it. */
  lemma ShapeLinesPrefix(s: ConvexShape, center: Vec3, darkColor: Vec3, sqrt: real -> real,
                         all: seq<seq<seq<Vertex>>>, k: nat)
    requires ShapeLinesUpTo(s, center, darkColor, sqrt, all, k) && k > 0
    ensures ShapeLinesUpTo(s, center, darkColor, sqrt, all[..k - 1], k - 1)
  {
    var front := all[..k - 1];
    forall g | 0 <= g < |front|
      ensures FaceLinesOf(s, g, center, darkColor, sqrt, front[g])
    {
      assert front[g] == all[g];
      assert FaceLinesOf(s, g, center, darkColor, sqrt, all[g]);
    }
  }

  /** When no edge of a proper cut face degenerates, every cut-face edge gets its line. */
  lemma AllCutEdgesTraced(s: ConvexShape, center: Vec3, darkColor: Vec3, sqrt: real -> real,
                          all: seq<seq<seq<Vertex>>>, k: nat)
    requires ShapeLinesUpTo(s, center, darkColor, sqrt, all, k)
    requires forall f, i :: 0 <= f < k && ProperCut(s, f) && 0 <= i < |s.faces[f]| ==>
      Traced(s.faces[f], i, center, FaceNormalOf(s.faces[f], sqrt), sqrt)
    ensures CrackCount(all, k) == CutEdges(s, k)
  {
    if k > 0 {
      var f := k - 1;
      ShapeLinesPrefix(s, center, darkColor, sqrt, all, k);
      AllCutEdgesTraced(s, center, darkColor, sqrt, all[..f], f);
      assert all == all[..f] + [all[f]];
      CracksSame(all[..f], [all[f]], f);
      assert FaceLinesOf(s, f, center, darkColor, sqrt, all[f]);
      if ProperCut(s, f) {
        var n := FaceNormalOf(s.faces[f], sqrt);
        AllEdgesTraced(s.faces[f], center, n, n.Scale(0.002), darkColor, sqrt, all[f]);
      }
    }
  }

  /** `addEdgeCracks`: a thin dark quad just above every edge of every proper cut face, in
      the crack colour (12% of the block colour), skipping edges whose in-face normal
      degenerates. Only whole quads are appended, at most one per cut-face edge, and a shape
      without cut faces gets none; no random draw is made. all are the lines, face by face
      and edge by edge. */
  method AddEdgeCracks(shape: ConvexShape, center: Vec3, color: Vec3,
                       V: seq<Vertex>, I: seq<nat>, sqrt: real -> real)
    returns (V': seq<Vertex>, I': seq<nat>, ghost all: seq<seq<seq<Vertex>>>)
    ensures ShapeLinesUpTo(shape, center, color.Scale(0.12), sqrt, all, |shape.faces|)
    ensures V' == V + Cracks(all, |all|) && I' == I + QuadIndices(|V|, CrackCount(all, |all|))
    ensures Grown(V, I, V', I')
    ensures (|V'| - |V|) % 4 == 0 && (|I'| - |I|) * 2 == (|V'| - |V|) * 3
    ensures |V'| - |V| <= 4 * CutEdges(shape, |shape.faces|)
    ensures forall k :: |V| <= k < |V'| ==> V'[k].color == color.Scale(0.12)
    ensures UnitColor(color) ==> ColoursValid(V', |V|)
  {
    var darkColor := color.Scale(0.12);
    V', I' := V, I;
    ghost var quads := 0;
    all := [];
    for fi := 0 to |shape.faces|
      invariant ShapeLinesUpTo(shape, center, darkColor, sqrt, all, fi)
      invariant V' == V + Cracks(all, |all|) && quads == CrackCount(all, |all|)
      invariant I' == I + QuadIndices(|V|, quads)
      invariant |V'| == |V| + 4 * quads && |I'| == |I| + 6 * quads
      invariant quads <= CutEdges(shape, fi)
      invariant Grown(V, I, V', I')
      invariant forall k :: |V| <= k < |V'| ==> V'[k].color == darkColor
    {
      ghost var Vs, Is, q := V', I', quads;
      ghost var lines, n;
      V', I', lines, n := AddFaceLines(shape, fi, center, darkColor, V', I', sqrt, all);
      GrownTransitive(V, I, Vs, Is, V', I');
      CracksStep(all, lines, V, Vs, V', q, n);
      quads := quads + n;
      IndicesThen(I, Is, I', |V|, |Vs|, q, n, quads);
      all := all + [lines];
    }
    assert |V'| - |V| == 4 * quads && |I'| - |I| == 6 * quads;
    if UnitColor(color) {
      assert UnitColor(darkColor);
    }
  }

  /** A freshly spawned piece of debris: active, unrotated, unit scale, just born with the
      given lifetime and persistence, spin within the physics bound, and a mesh whose
      indices all name its own vertices. */
  predicate Debris(fr: Fragment, maxLifetime: real, eternal: bool) {
    fr.active && fr.lifetime == 0.0 && fr.maxLifetime == maxLifetime && fr.eternal == eternal &&
    fr.rotation == ZERO && fr.scale == UNIT_SCALE && SpinBounded(fr.rotSpeed) &&
    WellIndexed(fr.vertices, fr.indices)
  }

  /** A small cube-like particle mesh: the six faces in the table order with their outward
      normals, every vertex inside the cube of half-size r about the fragment's origin, and
      valid colours. */
  ghost predicate CubeDebris(fr: Fragment, r: real) {
    |fr.vertices| == 24 && |fr.indices| == 36 && ColoursValid(fr.vertices, 0) &&
    forall k :: 0 <= k < 24 ==>
      fr.vertices[k].normal == FACE_NORMALS[k / 4] && Within(fr.vertices[k].pos, ZERO, r)
  }

  /** The mesh of CubeMesh over corners within r of the origin has its vertices within r,
      and the normal of face k / 4 at vertex k. */
  lemma CubeMeshWithin(V: seq<Vertex>, corners: seq<Vec3>, color: Vec3, r: real)
    requires |V| == 24 && |corners| == 8
    requires forall f, m :: 0 <= f < 6 && 0 <= m < 4 ==>
      V[4 * f + m] == Vertex(corners[FACE_CORNERS[f][m]], FACE_NORMALS[f], color)
    requires forall j :: 0 <= j < 8 ==> Within(corners[j], ZERO, r)
    ensures forall k :: 0 <= k < 24 ==>
      V[k] == Vertex(V[k].pos, FACE_NORMALS[k / 4], color) && Within(V[k].pos, ZERO, r)
  {
    forall k | 0 <= k < 24
      ensures V[k] == Vertex(V[k].pos, FACE_NORMALS[k / 4], color) && Within(V[k].pos, ZERO, r)
    {
      var f, m := k / 4, k % 4;
      assert 4 * f + m == k;
      assert FACE_CORNERS[f][m] < 8;
    }
  }

  /** `spawnDustCloud`: 40 tiny cubes scattered through the block, drifting sideways and
      never downwards at birth, living 5 seconds; each consumes 13 draws. */
  method SpawnDustCloud(rng: Rng, blockPos: Vec3, color: Vec3, eternal: bool)
    returns (dust: seq<Fragment>)
    modifies rng`drawn
    ensures |dust| == DUST_PARTICLES
    ensures rng.drawn == old(rng.drawn) + 13 * DUST_PARTICLES
    ensures forall k :: 0 <= k < |dust| ==>
      Debris(dust[k], 5.0, eternal) && dust[k].color == color &&
      Within(dust[k].position, blockPos, 0.45) && 0.0 <= dust[k].velocity.y <= 0.8 &&
      CubeDebris(dust[k], DUST_SIZE * 0.7)
  {
    dust := [];
    for i := 0 to DUST_PARTICLES
      invariant |dust| == i && rng.drawn == old(rng.drawn) + 13 * i
      invariant forall k :: 0 <= k < |dust| ==>
        Debris(dust[k], 5.0, eternal) && dust[k].color == color &&
        Within(dust[k].position, blockPos, 0.45) && 0.0 <= dust[k].velocity.y <= 0.8 &&
        CubeDebris(dust[k], DUST_SIZE * 0.7)
    {
      var fr := DustMote(rng, blockPos, color, eternal);
      dust := dust + [fr];
    }
  }

  /** One mote of `spawnDustCloud`: 13 draws for its scatter, drift, spin, size and tint. */
  method DustMote(rng: Rng, blockPos: Vec3, color: Vec3, eternal: bool) returns (fr: Fragment)
    modifies rng`drawn
    ensures rng.drawn == old(rng.drawn) + 13
    ensures Debris(fr, 5.0, eternal) && fr.color == color &&
      Within(fr.position, blockPos, 0.45) && 0.0 <= fr.velocity.y <= 0.8 &&
      CubeDebris(fr, DUST_SIZE * 0.7)
  {
    var position := PerturbPoint(rng, blockPos, 0.45);
    var vx := rng.Real(-1.0, 1.0);
    var vy := rng.Real(0.0, 0.8);
    var vz := rng.Real(-1.0, 1.0);
    var s1 := rng.Real(-1.0, 1.0);
    var s2 := rng.Real(-1.0, 1.0);
    var s3 := rng.Real(-1.0, 1.0);
    var sd := rng.Real(0.6, 1.4);
    var hs := DUST_SIZE * sd * 0.5;
    var dustCol := Tint(rng, color, 0.8, 0.04);
    var corners := CubeCorners(ZERO, hs);
    CornersWithin(ZERO, hs);
    var V, I := CubeMesh(corners, dustCol);
    CubeMeshWithin(V, corners, dustCol, DUST_SIZE * 0.7);
    fr := Fragment(position, Vec3(vx, vy, vz), ZERO, Vec3(s1 * 0.2, s2 * 0.2, s3 * 0.2),
                   color, UNIT_SCALE, V, I, 0.0, 5.0, eternal, true);
  }

  /** `spawnMicroParticles`: 25 chips, each a cube whose corners are jittered by up to 30% of
      its half-size, thrown outwards fast, living 8 seconds; each consumes 37 draws. */
  method SpawnMicroParticles(rng: Rng, blockPos: Vec3, color: Vec3, eternal: bool)
    returns (chips: seq<Fragment>)
    modifies rng`drawn
    ensures |chips| == MICRO_PARTICLES
    ensures rng.drawn == old(rng.drawn) + 37 * MICRO_PARTICLES
    ensures forall k :: 0 <= k < |chips| ==>
      Debris(chips[k], 8.0, eternal) && chips[k].color == color &&
      Within(chips[k].position, blockPos, 0.4) && -0.3 <= chips[k].velocity.y <= 0.5 &&
      CubeDebris(chips[k], MICRO_SIZE)
  {
    chips := [];
    for i := 0 to MICRO_PARTICLES
      invariant |chips| == i && rng.drawn == old(rng.drawn) + 37 * i
      invariant forall k :: 0 <= k < |chips| ==>
        Debris(chips[k], 8.0, eternal) && chips[k].color == color &&
        Within(chips[k].position, blockPos, 0.4) && -0.3 <= chips[k].velocity.y <= 0.5 &&
        CubeDebris(chips[k], MICRO_SIZE)
    {
      var fr := MicroChip(rng, blockPos, color, eternal);
      chips := chips + [fr];
    }
  }

  /** One chip of `spawnMicroParticles`: 37 draws for its scatter, throw, spin, size, tint
      and jittered corners. */
  method MicroChip(rng: Rng, blockPos: Vec3, color: Vec3, eternal: bool) returns (fr: Fragment)
    modifies rng`drawn
    ensures rng.drawn == old(rng.drawn) + 37
    ensures Debris(fr, 8.0, eternal) && fr.color == color &&
      Within(fr.position, blockPos, 0.4) && -0.3 <= fr.velocity.y <= 0.5 &&
      CubeDebris(fr, MICRO_SIZE)
  {
    var position := PerturbPoint(rng, blockPos, 0.4);
    var vx := rng.Real(-2.5, 2.5);
    var vy := rng.Real(-0.3, 0.5);
    var vz := rng.Real(-2.5, 2.5);
    var spin := PerturbPoint(rng, ZERO, 0.5);
    var sd := rng.Real(0.5, 1.5);
    var hs := MICRO_SIZE * sd * 0.5;
    var chipCol := Tint(rng, color, 0.65, 0.05);
    var corners := JitteredCorners(rng, hs);
    var V, I := CubeMesh(corners, chipCol);
    CubeMeshWithin(V, corners, chipCol, MICRO_SIZE);
    fr := Fragment(position, Vec3(vx, vy, vz), ZERO, spin, color, UNIT_SCALE, V, I,
                   0.0, 8.0, eternal, true);
  }

  /** The eight corners of a chip of half-size hs, each moved by up to 30% of hs per axis;
      24 draws. */
  method JitteredCorners(rng: Rng, hs: real) returns (corners: seq<Vec3>)
    requires 0.0 <= hs <= MICRO_SIZE * 0.75
    modifies rng`drawn
    ensures |corners| == 8 && rng.drawn == old(rng.drawn) + 24
    ensures forall k :: 0 <= k < 8 ==> Within(corners[k], CubeCorners(ZERO, hs)[k], hs * 0.3)
    ensures forall k :: 0 <= k < 8 ==> Within(corners[k], ZERO, MICRO_SIZE)
  {
    var signs := CubeCorners(ZERO, hs);
    CornersWithin(ZERO, hs);
    corners := [];
    for k := 0 to 8
      invariant |corners| == k && rng.drawn == old(rng.drawn) + 3 * k
      invariant forall j :: 0 <= j < k ==>
        Within(corners[j], signs[j], hs * 0.3) && Within(corners[j], ZERO, MICRO_SIZE)
    {
      var jit := hs * 0.3;
      var p := PerturbPoint(rng, signs[k], jit);
      WithinTriangle(p, signs[k], ZERO, jit, hs, MICRO_SIZE);
      corners := corners + [p];
    }
  }

  /** Half the side of the fractured block. */
  const HALF_SIZE: real := BLOCK_SIZE * 0.5

  /** One shard from a convex piece whose centre is pos: thrown along dir's horizontal part
      with a little random scatter, spun by draws scaled by 0.2 (a piece of a secondary split)
      or 0.25, meshed about pos and edged with cracks. Its colour is the block's colour; its
      mesh colours are valid whenever that colour is. */
  method MakeShard(rng: Rng, shape: ConvexShape, pos: Vec3, dir: Vec3, secondary: bool,
                   color: Vec3, eternal: bool, timeout: real, sqrt: real -> real)
    returns (fr: Fragment)
    modifies rng`drawn
    ensures Debris(fr, timeout, eternal) && fr.position == pos && fr.color == color
    ensures Abs(fr.velocity.x - dir.x) <= 0.2 && Abs(fr.velocity.y) <= 0.075 &&
            Abs(fr.velocity.z - dir.z) <= 0.2
    ensures |fr.vertices| >= ProperPoints(shape.faces, |shape.faces|)
    ensures ProperPoints(shape.faces, |shape.faces|) > 0 ==> |fr.indices| >= 3
    ensures UnitColor(color) ==> ColoursValid(fr.vertices, 0)
  {
    var velocity, spin := ShardMotion(rng, dir, secondary);
    var V, I := ShapeToMesh(rng, shape, pos, color, [], [], sqrt);
    var V', I', cracks := AddEdgeCracks(shape, pos, color, V, I, sqrt);
    GrownTransitive([], [], V, I, V', I');
    GrownKeepsWellIndexed([], [], V', I');
    fr := Fragment(pos, velocity, ZERO, spin, color, UNIT_SCALE, V', I', 0.0, timeout, eternal, true);
  }

  /** A shard's launch: its velocity is `dir` (horizontal parts) plus up to 0.2 of scatter
      across and 0.075 vertically, and its spin is up to 0.1 per axis (0.125 for a primary
      shard); six draws, velocity first. */
  method ShardMotion(rng: Rng, dir: Vec3, secondary: bool) returns (velocity: Vec3, spin: Vec3)
    modifies rng`drawn
    ensures rng.drawn == old(rng.drawn) + 6
    ensures Abs(velocity.x - dir.x) <= 0.2 && Abs(velocity.y) <= 0.075 &&
            Abs(velocity.z - dir.z) <= 0.2
    ensures Within(spin, ZERO, if secondary then 0.1 else 0.125)
  {
    var r1 := rng.Real(-0.5, 0.5);
    var r2 := rng.Real(-0.5, 0.5);
    var r3 := rng.Real(-0.5, 0.5);
    velocity := Vec3(dir.x * 1.0 + r1 * 0.4, r2 * 0.15, dir.z * 1.0 + r3 * 0.4);
    var s1 := rng.Real(-0.5, 0.5);
    var s2 := rng.Real(-0.5, 0.5);
    var s3 := rng.Real(-0.5, 0.5);
    spin := if secondary then Vec3(s1 * 0.2, s2 * 0.2, s3 * 0.2)
            else Vec3(s1 * 0.25, s2 * 0.25, s3 * 0.25);
  }

  /** The shards of one Voronoi cell: none for an empty piece or one whose volume estimate is
      below MIN_PIECE_VOLUME; otherwise, with probability 1/4 when the volume exceeds 0.01,
      the piece is split by a random plane near its centre and each half that is non-empty
      and large enough becomes a shard; else the piece itself becomes one shard. */
  method PieceShards(rng: Rng, piece: ConvexShape, blockCenter: Vec3, color: Vec3,
                     eternal: bool, timeout: real, sqrt: real -> real,
                     order: seq<Vec3> -> seq<Vec3>)
    returns (shards: seq<Fragment>)
    requires WellFormed(piece) && Permutes(order)
    modifies rng`drawn
    ensures |shards| <= 2
    ensures |piece.faces| == 0 ==> shards == [] && rng.drawn == old(rng.drawn)
    ensures FacesVolume(piece.faces, Centroid(piece)) < MIN_PIECE_VOLUME ==> shards == []
    ensures |piece.faces| > 0 && MIN_PIECE_VOLUME <= FacesVolume(piece.faces, Centroid(piece)) <= 0.01 ==>
      |shards| == 1 && shards[0].position == Centroid(piece)
    ensures forall k :: 0 <= k < |shards| ==>
      Debris(shards[k], timeout, eternal) && shards[k].color == color &&
      (UnitColor(color) ==> ColoursValid(shards[k].vertices, 0))
    ensures (forall m :: 0 <= m < |piece.faces| ==> |piece.faces[m]| >= 3) ==>
      forall k :: 0 <= k < |shards| ==> |shards[k].indices| >= 3
  {
    shards := [];
    if |piece.faces| == 0 {
      return;
    }
    var vol := ShapeVolume(piece);
    if vol < MIN_PIECE_VOLUME {
      return;
    }
    var center := ShapeCenter(piece);
    var awayDir := center.Sub(blockCenter);
    var awayLen := Length(awayDir, sqrt);
    if awayLen > 0.01 {
      awayDir := awayDir.Scale(1.0 / awayLen);
    } else {
      var ax := rng.Real(-0.5, 0.5);
      var az := rng.Real(-0.5, 0.5);
      awayDir := Vec3(ax, 0.0, az);
    }
    var secondaryChance := rng.Int(0, SECONDARY_FRACTURE_CHANCE);
    if secondaryChance == 0 && vol > 0.01 {
      shards := SplitShards(rng, piece, center, blockCenter, color, eternal, timeout, sqrt, order);
      return;
    }
    var fr := MakeShard(rng, piece, center, awayDir, false, color, eternal, timeout, sqrt);
    if forall m :: 0 <= m < |piece.faces| ==> |piece.faces[m]| >= 3 {
      ProperFacesHavePoints(piece.faces);
    }
    shards := [fr];
  }

  /** The secondary fracture: the piece is cut by the bisector of two points drawn near its
      centre, and each non-empty half of sufficient volume becomes a shard. */
  method SplitShards(rng: Rng, piece: ConvexShape, center: Vec3, blockCenter: Vec3, color: Vec3,
                     eternal: bool, timeout: real, sqrt: real -> real,
                     order: seq<Vec3> -> seq<Vec3>)
    returns (shards: seq<Fragment>)
    requires WellFormed(piece) && Permutes(order)
    modifies rng`drawn
    ensures |shards| <= 2
    ensures forall k :: 0 <= k < |shards| ==>
      Debris(shards[k], timeout, eternal) && shards[k].color == color &&
      (UnitColor(color) ==> ColoursValid(shards[k].vertices, 0)) && |shards[k].indices| >= 3
  {
    var half1, half2 := SplitPiece(rng, piece, center, sqrt, order);
    shards := HalvesToShards(rng, half1, half2, blockCenter, color, eternal, timeout, sqrt);
  }

  /** The shards of the two halves, first half first. */
  method HalvesToShards(rng: Rng, half1: ConvexShape, half2: ConvexShape, blockCenter: Vec3,
                        color: Vec3, eternal: bool, timeout: real, sqrt: real -> real)
    returns (shards: seq<Fragment>)
    modifies rng`drawn
    ensures |shards| <= 2
    ensures forall k :: 0 <= k < |shards| ==>
      Debris(shards[k], timeout, eternal) && shards[k].color == color &&
      (UnitColor(color) ==> ColoursValid(shards[k].vertices, 0))
    ensures (forall m :: 0 <= m < |half1.faces| ==> |half1.faces[m]| >= 3) &&
            (forall m :: 0 <= m < |half2.faces| ==> |half2.faces[m]| >= 3) ==>
      forall k :: 0 <= k < |shards| ==> |shards[k].indices| >= 3
  {
    var first := HalfShard(rng, half1, blockCenter, color, eternal, timeout, sqrt);
    var second := HalfShard(rng, half2, blockCenter, color, eternal, timeout, sqrt);
    shards := first + second;
    forall k | 0 <= k < |shards|
      ensures shards[k] == if k < |first| then first[k] else second[k - |first|]
    {
      if k < |first| {
        assert shards[k] == first[k];
      } else {
        assert shards[k] == second[k - |first|];
      }
    }
  }

  /** The two halves of a secondary split: the piece clipped on either side of the bisector
      of two points drawn within 0.15 of its centre. */
  method SplitPiece(rng: Rng, piece: ConvexShape, center: Vec3, sqrt: real -> real,
                    order: seq<Vec3> -> seq<Vec3>)
    returns (half1: ConvexShape, half2: ConvexShape)
    requires WellFormed(piece) && Permutes(order)
    modifies rng`drawn
    ensures rng.drawn == old(rng.drawn) + 6
    ensures forall m :: 0 <= m < |half1.faces| ==> |half1.faces[m]| >= 3
    ensures forall m :: 0 <= m < |half2.faces| ==> |half2.faces[m]| >= 3
    ensures exists mid, dir ::
      (Within(mid, center, HALF_SIZE * 0.3) &&
       CutOf(half1, piece, mid, dir) && CutOf(half2, piece, mid, ZERO.Sub(dir)))
  {
    var subSeed1 := PerturbPoint(rng, center, HALF_SIZE * 0.3);
    var subSeed2 := PerturbPoint(rng, center, HALF_SIZE * 0.3);
    var subMid := subSeed1.Add(subSeed2).Scale(0.5);
    var subDir := Normalized(subSeed1.Sub(subSeed2), sqrt);
    half1 := ClipShapeByPlane(piece, subMid, subDir, order);
    half2 := ClipShapeByPlane(piece, subMid, ZERO.Sub(subDir), order);
  }

  /** One half of a secondary split: no shard when it is empty or its volume estimate is
      below MIN_PIECE_VOLUME, otherwise one shard about its centre, thrown away from the
      block centre (normalised only when farther than 0.01). */
  method HalfShard(rng: Rng, part: ConvexShape, blockCenter: Vec3, color: Vec3,
                   eternal: bool, timeout: real, sqrt: real -> real)
    returns (shards: seq<Fragment>)
    modifies rng`drawn
    ensures |shards| <= 1
    ensures |part.faces| == 0 || FacesVolume(part.faces, Centroid(part)) < MIN_PIECE_VOLUME ==>
      shards == [] && rng.drawn == old(rng.drawn)
    ensures |part.faces| > 0 && FacesVolume(part.faces, Centroid(part)) >= MIN_PIECE_VOLUME ==>
      |shards| == 1
    ensures forall k :: 0 <= k < |shards| ==>
      Debris(shards[k], timeout, eternal) && shards[k].color == color &&
      shards[k].position == Centroid(part) &&
      (UnitColor(color) ==> ColoursValid(shards[k].vertices, 0))
    ensures (forall m :: 0 <= m < |part.faces| ==> |part.faces[m]| >= 3) ==>
      forall k :: 0 <= k < |shards| ==> |shards[k].indices| >= 3
  {
    shards := [];
    if |part.faces| == 0 {
      return;
    }
    var sv := ShapeVolume(part);
    if sv < MIN_PIECE_VOLUME {
      return;
    }
    var sc := ShapeCenter(part);
    var ad := sc.Sub(blockCenter);
    var al := Length(ad, sqrt);
    if al > 0.01 {
      ad := ad.Scale(1.0 / al);
    }
    var fr := MakeShard(rng, part, sc, ad, true, color, eternal, timeout, sqrt);
    if forall m :: 0 <= m < |part.faces| ==> |part.faces[m]| >= 3 {
      ProperFacesHavePoints(part.faces);
    }
    shards := [fr];
  }

  /** s' is s cut by the bisecting plane of seeds i and j, facing seed i, through mid, a point
      within 0.025 per axis of the two seeds' midpoint. */
  ghost predicate BisectorCut(s': ConvexShape, s: ConvexShape, mid: Vec3, seeds: seq<Vec3>,
                              i: nat, j: nat, sqrt: real -> real)
    requires i < |seeds| && j < |seeds| && WellFormed(s)
  {
    Within(mid, seeds[i].Add(seeds[j]).Scale(0.5), 0.025) &&
    CutOf(s', s, mid, Normalized(seeds[i].Sub(seeds[j]), sqrt))
  }

  /** The step of the cell of seed i from chain[j] to chain[j + 1], while seed j is looked
      at: none for seed i itself (mids[j] is then unused), a cut through mids[j] by the
      bisecting plane of seeds i and j for any other. */
  ghost predicate CellStep(chain: seq<ConvexShape>, mids: seq<Vec3>, seeds: seq<Vec3>, i: nat,
                           j: nat, sqrt: real -> real)
    requires i < |seeds| && |chain| == |mids| + 1
  {
    j < |mids| && j < |seeds| &&
    if j == i then chain[j + 1] == chain[j]
    else WellFormed(chain[j]) && BisectorCut(chain[j + 1], chain[j], mids[j], seeds, i, j, sqrt)
  }

  /** Every shape of chain after the first follows from the one before by the step for the
      seed looked at. */
  ghost predicate CellChain(chain: seq<ConvexShape>, mids: seq<Vec3>, seeds: seq<Vec3>, i: nat,
                            sqrt: real -> real)
    requires i < |seeds|
  {
    |chain| == |mids| + 1 && forall j :: 0 <= j < |mids| ==> CellStep(chain, mids, seeds, i, j, sqrt)
  }

  /** A cell chain extended by the step for the seed of its last shape is a cell chain. */
  lemma ChainExtends(chain: seq<ConvexShape>, mids: seq<Vec3>, next: ConvexShape, mid: Vec3,
                     seeds: seq<Vec3>, i: nat, sqrt: real -> real)
    requires i < |seeds| && CellChain(chain, mids, seeds, i, sqrt)
    requires CellStep(chain + [next], mids + [mid], seeds, i, |mids|, sqrt)
    ensures CellChain(chain + [next], mids + [mid], seeds, i, sqrt)
  {
    var chain', mids' := chain + [next], mids + [mid];
    forall j | 0 <= j < |mids'| ensures CellStep(chain', mids', seeds, i, j, sqrt) {
      if j < |mids| {
        assert CellStep(chain, mids, seeds, i, j, sqrt);
        assert chain'[j] == chain[j] && chain'[j + 1] == chain[j + 1] && mids'[j] == mids[j];
      }
    }
  }

  /** A cell chain that has reached seed i stays put for it. */
  lemma ChainSkips(chain: seq<ConvexShape>, mids: seq<Vec3>, seeds: seq<Vec3>, i: nat,
                   sqrt: real -> real)
    requires i < |seeds| && |chain| == i + 1 && CellChain(chain, mids, seeds, i, sqrt)
    ensures CellChain(chain + [chain[i]], mids + [ZERO], seeds, i, sqrt)
  {
    assert CellStep(chain + [chain[i]], mids + [ZERO], seeds, i, i, sqrt);
    ChainExtends(chain, mids, chain[i], ZERO, seeds, i, sqrt);
  }

  /** The Voronoi cell of seed i inside the block: the block cube clipped, for every other
      seed j in order, by the jittered bisecting plane of seeds i and j facing seed i,
      stopping early once nothing is left. chain lists the cube and the shape after each
      seed looked at, mids the planes' points: seed i itself leaves the shape as it is, every
      other seed cuts it, and only the last shape can be empty, which it is when the loop
      stopped early. The cell is a well-formed shape whose faces all have at least 3
      vertices. */
  method CutCell(rng: Rng, seeds: seq<Vec3>, i: nat, blockCenter: Vec3, sqrt: real -> real,
                 order: seq<Vec3> -> seq<Vec3>)
    returns (piece: ConvexShape, ghost chain: seq<ConvexShape>, ghost mids: seq<Vec3>)
    requires i < |seeds| && Permutes(order)
    modifies rng`drawn
    ensures WellFormed(piece)
    ensures forall m :: 0 <= m < |piece.faces| ==> |piece.faces[m]| >= 3
    ensures CellChain(chain, mids, seeds, i, sqrt)
    ensures 1 <= |chain| <= |seeds| + 1 && chain[0] == MakeCubeShape(blockCenter, HALF_SIZE)
    ensures piece == chain[|chain| - 1]
    ensures forall k :: 0 <= k < |chain| - 1 ==> |chain[k].faces| > 0
    ensures |chain| <= |seeds| ==> piece.faces == []
  {
    piece := MakeCubeShape(blockCenter, HALF_SIZE);
    chain, mids := [piece], [];
    for j := 0 to |seeds|
      invariant WellFormed(piece)
      invariant forall m :: 0 <= m < |piece.faces| ==> |piece.faces[m]| >= 3
      invariant |chain| == j + 1 && chain[0] == MakeCubeShape(blockCenter, HALF_SIZE)
      invariant piece == chain[j]
      invariant forall k :: 0 <= k <= j ==> |chain[k].faces| > 0
      invariant CellChain(chain, mids, seeds, i, sqrt)
    {
      if j != i {
        var next;
        ghost var mid;
        next, mid := BisectorStep(rng, seeds, i, j, piece, chain, mids, sqrt, order);
        chain, mids := chain + [next], mids + [mid];
        piece := next;
        if |piece.faces| == 0 {
          break;
        }
      } else {
        ChainSkips(chain, mids, seeds, i, sqrt);
        chain, mids := chain + [piece], mids + [ZERO];
      }
    }
  }

  /** One step of the cell loop: piece, the last shape of the chain, cut through a point mid
      drawn within 0.025 of the midpoint of seeds i and j by their bisecting plane. */
  method BisectorStep(rng: Rng, seeds: seq<Vec3>, i: nat, j: nat, piece: ConvexShape,
                      ghost chain: seq<ConvexShape>, ghost mids: seq<Vec3>,
                      sqrt: real -> real, order: seq<Vec3> -> seq<Vec3>)
    returns (next: ConvexShape, ghost mid: Vec3)
    requires i < |seeds| && j < |seeds| && i != j && WellFormed(piece) && Permutes(order)
    requires CellChain(chain, mids, seeds, i, sqrt) && |chain| == j + 1 && chain[j] == piece
    modifies rng`drawn
    ensures WellFormed(next) && forall m :: 0 <= m < |next.faces| ==> |next.faces[m]| >= 3
    ensures CellChain(chain + [next], mids + [mid], seeds, i, sqrt)
  {
    var m := seeds[i].Add(seeds[j]).Scale(0.5);
    var dir := Normalized(seeds[i].Sub(seeds[j]), sqrt);
    m := PerturbPoint(rng, m, 0.025);
    next := ClipShapeByPlane(piece, m, dir, order);
    mid := m;
    assert CellStep(chain + [next], mids + [mid], seeds, i, j, sqrt);
    ChainExtends(chain, mids, next, mid, seeds, i, sqrt);
  }

  /** `fractureAndSpawn`: 7 to 14 random seeds inside 85% of the block, one Voronoi cell
      each, each cell giving at most two shards; then the 25 chips and the 40 dust motes.
      The result lists the shards, then the chips, then the dust; every piece starts active,
      unrotated and just born, keeps the block's colour, and has valid mesh colours whenever
      the block's colour is valid. */
  method FractureAndSpawn(rng: Rng, bl: Block, eternal: bool, timeout: real,
                          sqrt: real -> real, order: seq<Vec3> -> seq<Vec3>)
    returns (spawned: seq<Fragment>)
    requires Permutes(order)
    modifies rng`drawn
    ensures MICRO_PARTICLES + DUST_PARTICLES <= |spawned|
    ensures |spawned| <= 2 * FRACTURE_MAX_PIECES + MICRO_PARTICLES + DUST_PARTICLES
    ensures forall k :: 0 <= k < |spawned| ==> spawned[k].color == bl.color
    ensures var n := |spawned| - MICRO_PARTICLES - DUST_PARTICLES;
      (forall k :: 0 <= k < n ==> Debris(spawned[k], timeout, eternal)) &&
      (forall k :: n <= k < n + MICRO_PARTICLES ==>
         Debris(spawned[k], 8.0, eternal) && CubeDebris(spawned[k], MICRO_SIZE)) &&
      (forall k :: n + MICRO_PARTICLES <= k < |spawned| ==>
         Debris(spawned[k], 5.0, eternal) && CubeDebris(spawned[k], DUST_SIZE * 0.7))
    ensures UnitColor(bl.color) ==> forall k :: 0 <= k < |spawned| ==> ColoursValid(spawned[k].vertices, 0)
    ensures forall k :: 0 <= k < |spawned| ==> |spawned[k].indices| >= 3
  {
    var blockCenter := bl.position;
    var pieceCount := rng.Int(FRACTURE_MIN_PIECES, FRACTURE_MAX_PIECES);
    var seeds: seq<Vec3> := [];
    for i := 0 to pieceCount
      invariant |seeds| == i
      invariant forall k :: 0 <= k < i ==> Within(seeds[k], blockCenter, HALF_SIZE * 0.85)
    {
      var seed := RandomPointInCube(rng, blockCenter, HALF_SIZE * 0.85);
      seeds := seeds + [seed];
    }
    var shards: seq<Fragment> := [];
    for i := 0 to pieceCount
      invariant |shards| <= 2 * i
      invariant forall k :: 0 <= k < |shards| ==>
        Debris(shards[k], timeout, eternal) && shards[k].color == bl.color &&
        (UnitColor(bl.color) ==> ColoursValid(shards[k].vertices, 0)) && |shards[k].indices| >= 3
    {
      var piece: ConvexShape;
      ghost var chain: seq<ConvexShape>, mids: seq<Vec3>;
      piece, chain, mids := CutCell(rng, seeds, i, blockCenter, sqrt, order);
      var more := PieceShards(rng, piece, blockCenter, bl.color, eternal, timeout, sqrt, order);
      shards := shards + more;
    }
    var chips := SpawnMicroParticles(rng, blockCenter, bl.color, eternal);
    var dust := SpawnDustCloud(rng, blockCenter, bl.color, eternal);
    spawned := shards + chips + dust;
    assert spawned[..|shards|] == shards;
    assert forall k :: |shards| <= k < |shards| + |chips| ==> spawned[k] == chips[k - |shards|];
    assert forall k :: |shards| + |chips| <= k < |spawned| ==>
      spawned[k] == dust[k - |shards| - |chips|];
  }
}
