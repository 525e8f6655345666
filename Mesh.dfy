/** Mesh-building pieces that the source writes out in several places (the cube corner and
    face tables of ALLOPTIMIZER.cpp, MAIN.cpp and BLOCK_FRACTURE.cpp, the base-relative quad
    and triangle pushes and the triangle fan), stated once. A mesh is a vertex buffer `V`
    and an index buffer `I`; emitters only ever append to both. */
module Mesh {
  import opened Types

  /** p lies in the axis-aligned cube of half-size r about c. */
  predicate Within(p: Vec3, c: Vec3, r: real) {
    c.x - r <= p.x <= c.x + r && c.y - r <= p.y <= c.y + r && c.z - r <= p.z <= c.z + r
  }

  /** Cubes about nearby centres: p within r1 of a, and a within r2 of b, put p within any
      R >= r1 + r2 of b. */
  lemma WithinTriangle(p: Vec3, a: Vec3, b: Vec3, r1: real, r2: real, R: real)
    requires Within(p, a, r1) && Within(a, b, r2) && r1 + r2 <= R
    ensures Within(p, b, R)
  {}

  /** The eight corners of a cube of half-size h about c, in the source's order. */
  function CubeCorners(c: Vec3, h: real): (cs: seq<Vec3>)
    ensures |cs| == 8
  {
    [Vec3(c.x - h, c.y - h, c.z - h), Vec3(c.x + h, c.y - h, c.z - h),
     Vec3(c.x + h, c.y + h, c.z - h), Vec3(c.x - h, c.y + h, c.z - h),
     Vec3(c.x - h, c.y - h, c.z + h), Vec3(c.x + h, c.y - h, c.z + h),
     Vec3(c.x + h, c.y + h, c.z + h), Vec3(c.x - h, c.y + h, c.z + h)]
  }

  /** Every corner lies on the cube of half-size h about c. */
  lemma CornersWithin(c: Vec3, h: real)
    requires h >= 0.0
    ensures forall k :: 0 <= k < 8 ==> Within(CubeCorners(c, h)[k], c, h)
  {
    var cs := CubeCorners(c, h);
    assert Within(cs[0], c, h) && Within(cs[1], c, h) && Within(cs[2], c, h) && Within(cs[3], c, h);
  }

  /** Corner indices of the six faces (-z, +z, -x, +x, -y, +y) and their outward normals. */
  const FACE_CORNERS: seq<seq<nat>> :=
    [[0, 3, 2, 1], [4, 5, 6, 7], [0, 4, 7, 3], [1, 2, 6, 5], [0, 1, 5, 4], [3, 7, 6, 2]]

  const FACE_NORMALS: seq<Vec3> :=
    [Vec3(0.0, 0.0, -1.0), Vec3(0.0, 0.0, 1.0), Vec3(-1.0, 0.0, 0.0),
     Vec3(1.0, 0.0, 0.0), Vec3(0.0, -1.0, 0.0), Vec3(0.0, 1.0, 0.0)]

  /** Fixed-direction face shading: top brightest, bottom darkest, x-facing sides 0.7,
      z-facing sides 0.8. */
  function Shade(n: Vec3): (s: real)
    ensures 0.4 <= s <= 1.0
    ensures n.y > 0.5 <==> s == 1.0
  {
    if n.y > 0.5 then 1.0
    else if n.y < -0.5 then 0.4
    else if Abs(n.x) > 0.5 then 0.7
    else 0.8
  }

  /** Every index names a vertex of the buffer. */
  predicate WellIndexed(V: seq<Vertex>, I: seq<nat>) {
    forall k :: 0 <= k < |I| ==> I[k] < |V|
  }

  /** (V', I') extends (V, I), and every appended index names an appended vertex. */
  ghost predicate Grown(V: seq<Vertex>, I: seq<nat>, V': seq<Vertex>, I': seq<nat>) {
    V <= V' && I <= I' && forall k :: |I| <= k < |I'| ==> |V| <= I'[k] < |V'|
  }

  lemma GrownTransitive(V1: seq<Vertex>, I1: seq<nat>, V2: seq<Vertex>, I2: seq<nat>,
                        V3: seq<Vertex>, I3: seq<nat>)
    requires Grown(V1, I1, V2, I2) && Grown(V2, I2, V3, I3)
    ensures Grown(V1, I1, V3, I3)
  {
    forall k | |I1| <= k < |I3| ensures |V1| <= I3[k] < |V3| {
      if k < |I2| {
        assert I3[k] == I2[k];
      }
    }
  }

  lemma GrownKeepsWellIndexed(V: seq<Vertex>, I: seq<nat>, V': seq<Vertex>, I': seq<nat>)
    requires Grown(V, I, V', I') && WellIndexed(V, I)
    ensures WellIndexed(V', I')
  {
    forall k | 0 <= k < |I'| ensures I'[k] < |V'| {
      if k < |I| {
        assert I'[k] == I[k];
      }
    }
  }

  /** The two triangles (b, b+1, b+2) and (b, b+2, b+3) of a quad whose four vertices start
      at b. */
  function QuadAt(b: nat): seq<nat> {
    [b, b + 1, b + 2, b, b + 2, b + 3]
  }

  /** The triangles of q quads laid out one after another from vertex base. */
  function QuadIndices(base: nat, q: nat): (r: seq<nat>)
    ensures |r| == 6 * q
  {
    if q == 0 then [] else QuadIndices(base, q - 1) + QuadAt(base + 4 * (q - 1))
  }

  /** The six indices of quad t are the quad pattern over its own four vertices. */
  lemma {:induction false} QuadIndicesAt(base: nat, q: nat, t: nat)
    requires t < q
    ensures QuadIndices(base, q)[6 * t .. 6 * t + 6] == QuadAt(base + 4 * t)
  {
    var prev := QuadIndices(base, q - 1);
    if t < q - 1 {
      QuadIndicesAt(base, q - 1, t);
      assert QuadIndices(base, q)[6 * t .. 6 * t + 6] == prev[6 * t .. 6 * t + 6];
    } else {
      assert QuadIndices(base, q)[6 * t .. 6 * t + 6] == QuadIndices(base, q)[|prev| ..];
    }
  }

  /** Quads laid out from base, followed by quads laid out right after them, are quads laid out
      from base. */
  lemma {:induction false} QuadIndicesAppend(base: nat, p: nat, q: nat)
    ensures QuadIndices(base, p) + QuadIndices(base + 4 * p, q) == QuadIndices(base, p + q)
  {
    if q > 0 {
      QuadIndicesAppend(base, p, q - 1);
      assert base + 4 * p + 4 * (q - 1) == base + 4 * (p + q - 1);
      assert QuadIndices(base, p) + QuadIndices(base + 4 * p, q) ==
        QuadIndices(base, p) + QuadIndices(base + 4 * p, q - 1) + QuadAt(base + 4 * (p + q - 1));
    }
  }

  /** The triangles of q quads from base, then of n more quads right after them. */
  lemma QuadIndicesThen(I: seq<nat>, I': seq<nat>, I'': seq<nat>, base: nat, q: nat, next: nat,
                        n: nat)
    requires I' == I + QuadIndices(base, q) && next == base + 4 * q
    requires I'' == I' + QuadIndices(next, n)
    ensures I'' == I + QuadIndices(base, q + n)
  {
    QuadIndicesAppend(base, q, n);
    assert I'' == I + (QuadIndices(base, q) + QuadIndices(next, n));
  }

  /** Quads laid out from base name only their own 4q vertices. */
  lemma {:induction false} QuadIndicesWithin(base: nat, q: nat)
    ensures forall k :: 0 <= k < 6 * q ==> base <= QuadIndices(base, q)[k] < base + 4 * q
  {
    if q > 0 {
      QuadIndicesWithin(base, q - 1);
      var r := QuadIndices(base, q);
      assert r == QuadIndices(base, q - 1) + QuadAt(base + 4 * (q - 1));
      forall k | 0 <= k < 6 * q
        ensures base <= r[k] < base + 4 * q
      {
        if k < 6 * (q - 1) {
          assert r[k] == QuadIndices(base, q - 1)[k];
        }
      }
    }
  }

  /** One more quad after q quads laid out from base. */
  lemma QuadIndicesSnoc(I: seq<nat>, I': seq<nat>, I'': seq<nat>, base: nat, q: nat)
    requires I' == I + QuadIndices(base, q) && I'' == I' + QuadAt(base + 4 * q)
    ensures I'' == I + QuadIndices(base, q + 1)
  {
    assert I'' == I + (QuadIndices(base, q) + QuadAt(base + 4 * q));
  }

  /** Four vertices and the two triangles (b, b+1, b+2), (b, b+2, b+3) over them. */
  method PushQuad(V: seq<Vertex>, I: seq<nat>, a: Vertex, b: Vertex, c: Vertex, d: Vertex)
    returns (V': seq<Vertex>, I': seq<nat>)
    ensures V' == V + [a, b, c, d]
    ensures I' == I + [|V|, |V| + 1, |V| + 2, |V|, |V| + 2, |V| + 3]
    ensures I' == I + QuadAt(|V|)
    ensures Grown(V, I, V', I')
  {
    var base := |V|;
    V' := V + [a, b, c, d];
    I' := I + [base, base + 1, base + 2, base, base + 2, base + 3];
  }

  /** Three vertices and the triangle over them. */
  method PushTriangle(V: seq<Vertex>, I: seq<nat>, a: Vertex, b: Vertex, c: Vertex)
    returns (V': seq<Vertex>, I': seq<nat>)
    ensures V' == V + [a, b, c]
    ensures I' == I + [|V|, |V| + 1, |V| + 2]
    ensures Grown(V, I, V', I')
  {
    var base := |V|;
    V' := V + [a, b, c];
    I' := I + [base, base + 1, base + 2];
  }

  /** Face f of a cube with the given corners, as one quad of uniform normal and colour. */
  method AppendFace(V: seq<Vertex>, I: seq<nat>, corners: seq<Vec3>, f: nat, color: Vec3)
    returns (V': seq<Vertex>, I': seq<nat>)
    requires |corners| == 8 && f < 6
    ensures |V'| == |V| + 4 && |I'| == |I| + 6 && V'[..|V|] == V
    ensures forall m :: 0 <= m < 4 ==>
      V'[|V| + m] == Vertex(corners[FACE_CORNERS[f][m]], FACE_NORMALS[f], color)
    ensures I' == I + QuadAt(|V|)
    ensures Grown(V, I, V', I')
  {
    var ids := FACE_CORNERS[f];
    var n := FACE_NORMALS[f];
    V', I' := PushQuad(V, I,
      Vertex(corners[ids[0]], n, color), Vertex(corners[ids[1]], n, color),
      Vertex(corners[ids[2]], n, color), Vertex(corners[ids[3]], n, color));
  }

  /** The six faces of a cube, in table order. */
  const ALL_FACES: seq<nat> := [0, 1, 2, 3, 4, 5]

  /** (V', I') is (V, I) followed by one shaded quad per face listed in faces, in order: the
      t-th quad's vertices, at 4t .. 4t+3 past the old end, carry that face's corners, outward
      normal and shaded colour, and its two triangles are (b, b+1, b+2) and (b, b+2, b+3) over
      those four vertices, b = 4t past the old end. */
  ghost predicate ShadedQuads(V: seq<Vertex>, I: seq<nat>, V': seq<Vertex>, I': seq<nat>,
                              faces: seq<nat>, corners: seq<Vec3>, col: Vec3)
  {
    |corners| == 8 && (forall t :: 0 <= t < |faces| ==> faces[t] < 6) &&
    |V'| == |V| + 4 * |faces| && |I'| == |I| + 6 * |faces| &&
    V'[..|V|] == V && I' == I + QuadIndices(|V|, |faces|) && Grown(V, I, V', I') &&
    (forall t, m :: 0 <= t < |faces| && 0 <= m < 4 ==>
       V'[|V| + 4 * t + m] ==
         Vertex(corners[FACE_CORNERS[faces[t]][m]], FACE_NORMALS[faces[t]],
                col.Scale(Shade(FACE_NORMALS[faces[t]]))))
  }

  /** One more shaded quad, for face f, after those for faces. */
  method AppendShadedFace(ghost V: seq<Vertex>, ghost I: seq<nat>, V': seq<Vertex>, I': seq<nat>,
                          ghost faces: seq<nat>, corners: seq<Vec3>, f: nat, col: Vec3)
    returns (V'': seq<Vertex>, I'': seq<nat>)
    requires ShadedQuads(V, I, V', I', faces, corners, col) && f < 6
    ensures ShadedQuads(V, I, V'', I'', faces + [f], corners, col)
  {
    V'', I'' := AppendFace(V', I', corners, f, col.Scale(Shade(FACE_NORMALS[f])));
    GrownTransitive(V, I, V', I', V'', I'');
    assert V''[..|V|] == V'[..|V|];
    QuadIndicesSnoc(I, I', I'', |V|, |faces|);
    var faces' := faces + [f];
    forall t, m | 0 <= t < |faces'| && 0 <= m < 4
      ensures V''[|V| + 4 * t + m] ==
        Vertex(corners[FACE_CORNERS[faces'[t]][m]], FACE_NORMALS[faces'[t]],
               col.Scale(Shade(FACE_NORMALS[faces'[t]])))
    {
      if t < |faces| {
        assert V''[|V| + 4 * t + m] == V'[|V| + 4 * t + m];
      }
    }
  }

  /** A closed cube mesh over eight corners (in the CubeCorners order) with one colour:
      face f occupies vertices 4f .. 4f+3, carries the face's outward normal, and its two
      triangles are (4f, 4f+1, 4f+2) and (4f, 4f+2, 4f+3). */
  method CubeMesh(corners: seq<Vec3>, color: Vec3) returns (V: seq<Vertex>, I: seq<nat>)
    requires |corners| == 8
    ensures |V| == 24 && |I| == 36 && WellIndexed(V, I)
    ensures forall f, m :: 0 <= f < 6 && 0 <= m < 4 ==>
      V[4 * f + m] == Vertex(corners[FACE_CORNERS[f][m]], FACE_NORMALS[f], color)
    ensures I == QuadIndices(0, 6)
  {
    V, I := [], [];
    for f := 0 to 6
      invariant |V| == 4 * f && |I| == 6 * f && WellIndexed(V, I)
      invariant forall g, m :: 0 <= g < f && 0 <= m < 4 ==>
        V[4 * g + m] == Vertex(corners[FACE_CORNERS[g][m]], FACE_NORMALS[g], color)
      invariant I == QuadIndices(0, f)
    {
      var V1, I1 := AppendFace(V, I, corners, f, color);
      GrownKeepsWellIndexed(V, I, V1, I1);
      CubeFacesStep(V, V1, corners, color, f);
      V, I := V1, I1;
    }
  }

  /** The faces before f stay where they were when face f is appended after them. */
  lemma CubeFacesStep(V: seq<Vertex>, V1: seq<Vertex>, corners: seq<Vec3>, color: Vec3, f: nat)
    requires |corners| == 8 && f < 6 && |V| == 4 * f && |V1| == |V| + 4 && V1[..|V|] == V
    requires forall g, m :: 0 <= g < f && 0 <= m < 4 ==>
      V[4 * g + m] == Vertex(corners[FACE_CORNERS[g][m]], FACE_NORMALS[g], color)
    requires forall m :: 0 <= m < 4 ==>
      V1[|V| + m] == Vertex(corners[FACE_CORNERS[f][m]], FACE_NORMALS[f], color)
    ensures forall g, m :: 0 <= g < f + 1 && 0 <= m < 4 ==>
      V1[4 * g + m] == Vertex(corners[FACE_CORNERS[g][m]], FACE_NORMALS[g], color)
  {
    forall g, m | 0 <= g < f + 1 && 0 <= m < 4
      ensures V1[4 * g + m] == Vertex(corners[FACE_CORNERS[g][m]], FACE_NORMALS[g], color)
    {
      if g < f {
        assert 4 * g + m < |V|;
        assert V1[4 * g + m] == V1[..|V|][4 * g + m];
      } else {
        assert 4 * g + m == |V| + m;
      }
    }
  }

  /** Every channel of a colour lies in [0, 1]. */
  predicate UnitColor(c: Vec3) {
    0.0 <= c.x <= 1.0 && 0.0 <= c.y <= 1.0 && 0.0 <= c.z <= 1.0
  }

  /** Channel-wise `clampf(v, 0, 1)`. */
  function ClampColor(c: Vec3): (r: Vec3)
    ensures UnitColor(r)
    ensures UnitColor(c) ==> r == c
  {
    Vec3(Clamp(c.x, 0.0, 1.0), Clamp(c.y, 0.0, 1.0), Clamp(c.z, 0.0, 1.0))
  }

  /** The vertices appended after position `from` have valid colours. */
  ghost predicate ColoursValid(V: seq<Vertex>, from: nat) {
    forall k :: from <= k < |V| ==> UnitColor(V[k].color)
  }

  /** The vertices appended after position `from` all carry normal n. */
  ghost predicate NormalsAre(V: seq<Vertex>, from: nat, n: Vec3) {
    forall k :: from <= k < |V| ==> V[k].normal == n
  }

  /** The fan triangulation of an n-gon whose vertices start at `base`:
      triangles (base, base+i, base+i+1) for i = 1 .. n-2. */
  function FanIndices(base: nat, n: nat): (r: seq<nat>)
    ensures |r| == if n >= 3 then 3 * (n - 2) else 0
    ensures forall k :: 0 <= k < |r| ==> base <= r[k] < base + n
  {
    if n < 3 then [] else FanIndices(base, n - 1) + [base, base + n - 2, base + n - 1]
  }

  /** Triangle t of the fan is (base, base+t+1, base+t+2): every triangle shares the first
      vertex and consecutive triangles share an edge. */
  lemma {:induction false} FanTriangles(base: nat, n: nat, t: nat)
    requires 3 <= n && t < n - 2
    ensures FanIndices(base, n)[3 * t] == base
    ensures FanIndices(base, n)[3 * t + 1] == base + t + 1
    ensures FanIndices(base, n)[3 * t + 2] == base + t + 2
  {
    if t < n - 3 {
      FanTriangles(base, n - 1, t);
      assert FanIndices(base, n)[..3 * (n - 3)] == FanIndices(base, n - 1);
    }
  }

  /** One polygon, translated by -center, with a uniform normal and colour, and its fan. */
  method AppendFan(V: seq<Vertex>, I: seq<nat>, face: seq<Vec3>, center: Vec3,
                   normal: Vec3, color: Vec3)
    returns (V': seq<Vertex>, I': seq<nat>)
    ensures |V'| == |V| + |face| && V'[..|V|] == V
    ensures forall k :: 0 <= k < |face| ==> V'[|V| + k] == Vertex(face[k].Sub(center), normal, color)
    ensures I' == I + FanIndices(|V|, |face|)
    ensures Grown(V, I, V', I')
  {
    var base := |V|;
    var placed: seq<Vertex> := [];
    for k := 0 to |face|
      invariant |placed| == k
      invariant forall j :: 0 <= j < k ==> placed[j] == Vertex(face[j].Sub(center), normal, color)
    {
      placed := placed + [Vertex(face[k].Sub(center), normal, color)];
    }
    var fan: seq<nat> := [];
    var i := 1;
    while i < |face| - 1
      invariant 1 <= i <= if |face| >= 2 then |face| - 1 else 1
      invariant fan == FanIndices(base, i + 1)
    {
      fan := fan + [base, base + i, base + i + 1];
      i := i + 1;
    }
    V' := V + placed;
    I' := I + fan;
    AppendedFanGrows(V, I, placed, fan);
  }

  lemma AppendedFanGrows(V: seq<Vertex>, I: seq<nat>, placed: seq<Vertex>, fan: seq<nat>)
    requires forall k :: 0 <= k < |fan| ==> |V| <= fan[k] < |V| + |placed|
    ensures Grown(V, I, V + placed, I + fan)
  {
    forall k | |I| <= k < |I + fan| ensures |V| <= (I + fan)[k] < |V + placed| {
      assert (I + fan)[k] == fan[k - |I|];
    }
  }
}
