/** The geometric kernel of BLOCK_FRACTURE.cpp: Sutherland-Hodgman clipping of a polygon
    against a half-space, convex shapes as lists of polygonal faces with a parallel list of
    "cut face" flags, clipping a whole shape and closing it with a cap polygon, and the shape
    centre and volume estimates. The half-space kept is the side the plane normal points to,
    the plane itself included. */
module Clipping {
  import opened Types
  import opened Mesh

  /** `pointBehindPlane`. */
  predicate Behind(p: Vec3, pp: Vec3, pn: Vec3) {
    Dot(p.Sub(pp), pn) < 0.0
  }

  /** A point behind a plane is not behind the same plane facing the other way, and a point
      behind neither lies on the plane. */
  lemma BehindOneSide(p: Vec3, pp: Vec3, pn: Vec3)
    ensures Behind(p, pp, pn) ==> !Behind(p, pp, ZERO.Sub(pn))
    ensures !Behind(p, pp, pn) && !Behind(p, pp, ZERO.Sub(pn)) <==> Dot(p.Sub(pp), pn) == 0.0
  {
    var d := p.Sub(pp);
    assert Dot(d, ZERO.Sub(pn)) == -Dot(d, pn);
  }

  /** `linePlaneIntersect`: the point where segment ab meets the plane, with the line
      parameter clamped to [0, 1]; a segment (nearly) parallel to the plane yields a. */
  function LinePlaneIntersect(a: Vec3, b: Vec3, pp: Vec3, pn: Vec3): (r: Vec3)
    ensures Abs(Dot(b.Sub(a), pn)) < 0.00000001 ==> r == a
  {
    var ab := b.Sub(a);
    var denom := Dot(ab, pn);
    if Abs(denom) < 0.00000001 then a
    else
      var t := Clamp(Dot(pp.Sub(a), pn) / denom, 0.0, 1.0);
      a.Add(ab.Scale(t))
  }

  /** Because the line parameter is clamped, the intersection always lies on the segment. */
  lemma IntersectionOnSegment(a: Vec3, b: Vec3, pp: Vec3, pn: Vec3)
    ensures exists t :: 0.0 <= t <= 1.0 && LinePlaneIntersect(a, b, pp, pn) == a.Add(b.Sub(a).Scale(t))
  {
    var ab := b.Sub(a);
    var denom := Dot(ab, pn);
    if Abs(denom) < 0.00000001 {
      assert LinePlaneIntersect(a, b, pp, pn) == a.Add(ab.Scale(0.0));
    } else {
      var t := Clamp(Dot(pp.Sub(a), pn) / denom, 0.0, 1.0);
      assert LinePlaneIntersect(a, b, pp, pn) == a.Add(ab.Scale(t));
    }
  }

  /** Moving along d changes the signed distance to the plane linearly. */
  lemma SignedDistanceAlong(a: Vec3, d: Vec3, t: real, pp: Vec3, pn: Vec3)
    ensures Dot(a.Add(d.Scale(t)).Sub(pp), pn) == Dot(a.Sub(pp), pn) + t * Dot(d, pn)
  {}

  /** A quotient of two numbers of the same sign, the numerator no larger in magnitude. */
  lemma RatioInUnit(num: real, den: real)
    requires (den < 0.0 && den <= num <= 0.0) || (0.0 < den && 0.0 <= num <= den)
    ensures 0.0 <= num / den <= 1.0
    ensures (num / den) * den == num
  {
    var q := num / den;
    assert q * den == num;
  }

  /** When a is kept and b is behind the plane (or the other way round), and the segment is
      not parallel to the plane, the intersection point lies exactly on the plane. */
  lemma IntersectionOnPlane(a: Vec3, b: Vec3, pp: Vec3, pn: Vec3)
    requires Behind(a, pp, pn) != Behind(b, pp, pn)
    requires Abs(Dot(b.Sub(a), pn)) >= 0.00000001
    ensures Dot(LinePlaneIntersect(a, b, pp, pn).Sub(pp), pn) == 0.0
  {
    var ab := b.Sub(a);
    var denom := Dot(ab, pn);
    var da := Dot(a.Sub(pp), pn);
    var db := Dot(b.Sub(pp), pn);
    assert denom == db - da;
    assert Dot(pp.Sub(a), pn) == -da;
    RatioInUnit(-da, denom);
    var raw := Dot(pp.Sub(a), pn) / denom;
    assert raw == -da / denom && raw * denom == -da;
    assert Clamp(raw, 0.0, 1.0) == raw;
    assert LinePlaneIntersect(a, b, pp, pn) == a.Add(ab.Scale(raw));
    SignedDistanceAlong(a, ab, raw, pp, pn);
  }

  /** The crossing point of an edge that crosses the plane is on the kept side, up to the
      1e-8 tolerance of the parallel-edge guard (a nearly parallel edge yields its first end,
      which is then within 1e-8 of the plane). */
  lemma IntersectionNearPlane(a: Vec3, b: Vec3, pp: Vec3, pn: Vec3)
    requires Behind(a, pp, pn) != Behind(b, pp, pn)
    ensures Dot(LinePlaneIntersect(a, b, pp, pn).Sub(pp), pn) > -0.00000001
  {
    var denom := Dot(b.Sub(a), pn);
    assert denom == Dot(b.Sub(pp), pn) - Dot(a.Sub(pp), pn);
    if Abs(denom) >= 0.00000001 {
      IntersectionOnPlane(a, b, pp, pn);
    }
  }

  /** What one edge (curr, next) contributes to the clipped polygon: curr if it is kept,
      then the crossing point if the edge leaves or enters the kept side. */
  function EdgeOut(curr: Vec3, next: Vec3, pp: Vec3, pn: Vec3): (r: seq<Vec3>)
    ensures |r| <= 2
    ensures !Behind(curr, pp, pn) ==> |r| >= 1 && r[0] == curr
    ensures Behind(curr, pp, pn) && Behind(next, pp, pn) ==> r == []
    ensures !Behind(curr, pp, pn) && !Behind(next, pp, pn) ==> r == [curr]
  {
    if !Behind(curr, pp, pn) then
      if Behind(next, pp, pn) then [curr, LinePlaneIntersect(curr, next, pp, pn)]
      else [curr]
    else if !Behind(next, pp, pn) then [LinePlaneIntersect(curr, next, pp, pn)]
    else []
  }

  /** An edge contributes only points on the kept side, up to the 1e-8 tolerance. */
  lemma EdgeOutKeptSide(curr: Vec3, next: Vec3, pp: Vec3, pn: Vec3)
    ensures forall q :: q in EdgeOut(curr, next, pp, pn) ==> Dot(q.Sub(pp), pn) > -0.00000001
  {
    if Behind(curr, pp, pn) != Behind(next, pp, pn) {
      IntersectionNearPlane(curr, next, pp, pn);
    }
  }

  /** The output of the first k edges of poly (edge i runs from poly[i] to the next vertex,
      cyclically). */
  function ClipEdges(poly: seq<Vec3>, pp: Vec3, pn: Vec3, k: nat): (r: seq<Vec3>)
    requires 0 < |poly| && k <= |poly|
    ensures |r| <= 2 * k
  {
    if k == 0 then []
    else ClipEdges(poly, pp, pn, k - 1) + EdgeOut(poly[k - 1], poly[k % |poly|], pp, pn)
  }

  /** The clipped polygon: empty for a degenerate polygon of fewer than 3 vertices. */
  function ClipSpec(poly: seq<Vec3>, pp: Vec3, pn: Vec3): (r: seq<Vec3>)
    ensures |poly| < 3 ==> r == []
    ensures |r| <= 2 * |poly|
  {
    if |poly| < 3 then [] else ClipEdges(poly, pp, pn, |poly|)
  }

  lemma {:induction false} ClipEdgesKeptSide(poly: seq<Vec3>, pp: Vec3, pn: Vec3, k: nat)
    requires 0 < |poly| && k <= |poly|
    ensures forall q :: q in ClipEdges(poly, pp, pn, k) ==> Dot(q.Sub(pp), pn) > -0.00000001
  {
    if k > 0 {
      ClipEdgesKeptSide(poly, pp, pn, k - 1);
      EdgeOutKeptSide(poly[k - 1], poly[k % |poly|], pp, pn);
    }
  }

  /** The clipped polygon lies on the kept side of the plane, up to the 1e-8 tolerance of
      the parallel-edge guard. */
  lemma ClipKeptSide(poly: seq<Vec3>, pp: Vec3, pn: Vec3)
    ensures forall q :: q in ClipSpec(poly, pp, pn) ==> Dot(q.Sub(pp), pn) > -0.00000001
  {
    if |poly| >= 3 {
      ClipEdgesKeptSide(poly, pp, pn, |poly|);
    }
  }

  /** `clipPolygonByPlane`. */
  method ClipPolygonByPlane(poly: seq<Vec3>, pp: Vec3, pn: Vec3) returns (result: seq<Vec3>)
    ensures result == ClipSpec(poly, pp, pn)
    ensures |poly| < 3 ==> result == []
    ensures |result| <= 2 * |poly|
  {
    if |poly| < 3 {
      return [];
    }
    result := [];
    var n := |poly|;
    for i := 0 to n
      invariant result == ClipEdges(poly, pp, pn, i)
    {
      var curr := poly[i];
      var next := poly[(i + 1) % n];
      var currInside := !Behind(curr, pp, pn);
      var nextInside := !Behind(next, pp, pn);
      assert ClipEdges(poly, pp, pn, i + 1) == result + EdgeOut(curr, next, pp, pn);
      if currInside {
        if nextInside {
          result := result + [curr];
        } else {
          result := result + [curr, LinePlaneIntersect(curr, next, pp, pn)];
        }
      } else if nextInside {
        result := result + [LinePlaneIntersect(curr, next, pp, pn)];
      }
    }
  }

  /** With no vertex behind the plane, the first k edges reproduce the first k vertices. */
  lemma {:induction false} ClipEdgesAllInside(poly: seq<Vec3>, pp: Vec3, pn: Vec3, k: nat)
    requires 0 < |poly| && k <= |poly|
    requires forall i :: 0 <= i < |poly| ==> !Behind(poly[i], pp, pn)
    ensures ClipEdges(poly, pp, pn, k) == poly[..k]
  {
    if k > 0 {
      ClipEdgesAllInside(poly, pp, pn, k - 1);
      assert poly[..k] == poly[..k - 1] + [poly[k - 1]];
    }
  }

  /** A polygon wholly on the kept side comes back unchanged. */
  lemma ClipAllInside(poly: seq<Vec3>, pp: Vec3, pn: Vec3)
    requires |poly| >= 3
    requires forall i :: 0 <= i < |poly| ==> !Behind(poly[i], pp, pn)
    ensures ClipSpec(poly, pp, pn) == poly
  {
    ClipEdgesAllInside(poly, pp, pn, |poly|);
    assert poly[..|poly|] == poly;
  }

  /** With every vertex behind the plane, no edge contributes anything. */
  lemma {:induction false} ClipEdgesAllBehind(poly: seq<Vec3>, pp: Vec3, pn: Vec3, k: nat)
    requires 0 < |poly| && k <= |poly|
    requires forall i :: 0 <= i < |poly| ==> Behind(poly[i], pp, pn)
    ensures ClipEdges(poly, pp, pn, k) == []
  {
    if k > 0 {
      ClipEdgesAllBehind(poly, pp, pn, k - 1);
      var next := k % |poly|;
      assert Behind(poly[k - 1], pp, pn) && Behind(poly[next], pp, pn);
      var step := EdgeOut(poly[k - 1], poly[next], pp, pn);
      assert step == [];
      assert ClipEdges(poly, pp, pn, k) == ClipEdges(poly, pp, pn, k - 1) + step;
    }
  }

  /** A polygon wholly behind the plane is clipped away. */
  lemma ClipAllBehind(poly: seq<Vec3>, pp: Vec3, pn: Vec3)
    requires forall i :: 0 <= i < |poly| ==> Behind(poly[i], pp, pn)
    ensures ClipSpec(poly, pp, pn) == []
  {
    if |poly| >= 3 {
      ClipEdgesAllBehind(poly, pp, pn, |poly|);
    }
  }

  /** Edge i of a kept vertex starts with that vertex. */
  lemma KeptVertexStartsItsEdge(poly: seq<Vec3>, pp: Vec3, pn: Vec3, i: nat)
    requires i < |poly|
    requires !Behind(poly[i], pp, pn)
    ensures |ClipEdges(poly, pp, pn, i)| < |ClipEdges(poly, pp, pn, i + 1)|
    ensures ClipEdges(poly, pp, pn, i + 1)[|ClipEdges(poly, pp, pn, i)|] == poly[i]
  {
    var before := ClipEdges(poly, pp, pn, i);
    var step := EdgeOut(poly[i], poly[(i + 1) % |poly|], pp, pn);
    assert ClipEdges(poly, pp, pn, i + 1) == before + step;
    assert (before + step)[|before|] == step[0];
  }

  /** A kept vertex poly[i] sits at position |ClipEdges(poly, i)| of the output of every
      longer run of edges; so kept vertices keep their original order. */
  lemma {:induction false} ClipKeepsOrder(poly: seq<Vec3>, pp: Vec3, pn: Vec3, i: nat, j: nat)
    requires i < j <= |poly|
    requires !Behind(poly[i], pp, pn)
    ensures |ClipEdges(poly, pp, pn, i)| < |ClipEdges(poly, pp, pn, j)|
    ensures ClipEdges(poly, pp, pn, j)[|ClipEdges(poly, pp, pn, i)|] == poly[i]
  {
    if j == i + 1 {
      KeptVertexStartsItsEdge(poly, pp, pn, i);
    } else {
      ClipKeepsOrder(poly, pp, pn, i, j - 1);
      var shorter := ClipEdges(poly, pp, pn, j - 1);
      var step := EdgeOut(poly[j - 1], poly[j % |poly|], pp, pn);
      var m := |ClipEdges(poly, pp, pn, i)|;
      assert ClipEdges(poly, pp, pn, j) == shorter + step;
      assert (shorter + step)[m] == shorter[m];
    }
  }

  /** Every kept vertex poly[i] appears in the clipped polygon, at position
      |ClipEdges(poly, i)|. */
  lemma ClipKeepsInside(poly: seq<Vec3>, pp: Vec3, pn: Vec3, i: nat)
    requires |poly| >= 3 && i < |poly|
    requires !Behind(poly[i], pp, pn)
    ensures |ClipEdges(poly, pp, pn, i)| < |ClipSpec(poly, pp, pn)|
    ensures ClipSpec(poly, pp, pn)[|ClipEdges(poly, pp, pn, i)|] == poly[i]
  {
    ClipKeepsOrder(poly, pp, pn, i, |poly|);
  }

  /** A convex piece: its polygonal faces and, for each face, whether it was produced by a
      cut (these are drawn darker and get surface detail). */
  datatype ConvexShape = ConvexShape(faces: seq<seq<Vec3>>, isCut: seq<bool>)

  /** Every face has a flag. */
  predicate WellFormed(s: ConvexShape) {
    |s.faces| == |s.isCut|
  }

  /** `makeCubeShape`: the six faces of the axis-aligned cube of half-size h about c, in the
      face order of the mesh tables; face f lies in the plane at distance h from c along
      FACE_NORMALS[f]; no face is a cut face. */
  function MakeCubeShape(c: Vec3, h: real): (s: ConvexShape)
    ensures WellFormed(s) && |s.faces| == 6
    ensures forall f :: 0 <= f < 6 ==> |s.faces[f]| == 4 && !s.isCut[f]
    ensures forall f, m :: 0 <= f < 6 && 0 <= m < 4 ==>
      s.faces[f][m] == CubeCorners(c, h)[FACE_CORNERS[f][m]]
  {
    var k := CubeCorners(c, h);
    ConvexShape(
      [[k[0], k[3], k[2], k[1]], [k[4], k[5], k[6], k[7]], [k[0], k[4], k[7], k[3]],
       [k[1], k[2], k[6], k[5]], [k[0], k[1], k[5], k[4]], [k[3], k[7], k[6], k[2]]],
      [false, false, false, false, false, false])
  }

  /** Face f of the cube lies in the plane at distance h from c along FACE_NORMALS[f]. */
  lemma CubeFacesOnPlanes(c: Vec3, h: real)
    ensures forall f, m :: 0 <= f < 6 && 0 <= m < 4 ==>
      Dot(MakeCubeShape(c, h).faces[f][m].Sub(c), FACE_NORMALS[f]) == h
  {
    var fs: seq<seq<Vec3>> := MakeCubeShape(c, h).faces;
    var k := CubeCorners(c, h);
    forall f: int, m: int | 0 <= f < 6 && 0 <= m < 4
      ensures Dot(fs[f][m].Sub(c), FACE_NORMALS[f]) == h
    {
      assert fs[f][m] == k[FACE_CORNERS[f][m]];
    }
  }

  /** Points at distance below 0.01 from the plane become candidate cap points. */
  predicate NearPlane(p: Vec3, pp: Vec3, pn: Vec3) {
    Abs(Dot(p.Sub(pp), pn)) < 0.01
  }

  /** The points of ps near the plane, in order. */
  function NearPoints(ps: seq<Vec3>, pp: Vec3, pn: Vec3): (r: seq<Vec3>)
    ensures |r| <= |ps|
  {
    if ps == [] then []
    else
      var last := ps[|ps| - 1];
      NearPoints(ps[..|ps| - 1], pp, pn) + (if NearPlane(last, pp, pn) then [last] else [])
  }

  /** The near points come from ps and are near the plane. */
  lemma {:induction false} NearPointsAreNear(ps: seq<Vec3>, pp: Vec3, pn: Vec3)
    ensures forall q :: q in NearPoints(ps, pp, pn) ==> q in ps && NearPlane(q, pp, pn)
  {
    if ps != [] {
      var init := ps[..|ps| - 1];
      NearPointsAreNear(init, pp, pn);
      forall q | q in init ensures q in ps {
        var i :| 0 <= i < |init| && init[i] == q;
        assert ps[i] == q;
      }
    }
  }

  method CollectNearPoints(ps: seq<Vec3>, pp: Vec3, pn: Vec3) returns (near: seq<Vec3>)
    ensures near == NearPoints(ps, pp, pn)
  {
    near := [];
    for i := 0 to |ps|
      invariant near == NearPoints(ps[..i], pp, pn)
    {
      assert ps[..i + 1][..i] == ps[..i];
      if NearPlane(ps[i], pp, pn) {
        near := near + [ps[i]];
      }
    }
    assert ps[..|ps|] == ps;
  }

  /** The faces of the first k faces of s that keep at least 3 vertices after clipping,
      each clipped, with its flag. */
  function KeptFaces(s: ConvexShape, pp: Vec3, pn: Vec3, k: nat): (r: ConvexShape)
    requires WellFormed(s) && k <= |s.faces|
    ensures WellFormed(r) && |r.faces| <= k
    ensures forall m :: 0 <= m < |r.faces| ==> |r.faces[m]| >= 3
  {
    if k == 0 then ConvexShape([], [])
    else
      var prev := KeptFaces(s, pp, pn, k - 1);
      var clipped := ClipSpec(s.faces[k - 1], pp, pn);
      if |clipped| >= 3 then ConvexShape(prev.faces + [clipped], prev.isCut + [s.isCut[k - 1]])
      else prev
  }

  /** Every face of r is the clipped version of one of the first k faces of s, with that
      face's flag. */
  ghost predicate ClippedFrom(r: ConvexShape, s: ConvexShape, pp: Vec3, pn: Vec3, k: nat)
    requires WellFormed(r) && WellFormed(s) && k <= |s.faces|
  {
    forall m :: 0 <= m < |r.faces| ==>
      exists i :: 0 <= i < k && r.faces[m] == ClipSpec(s.faces[i], pp, pn) && r.isCut[m] == s.isCut[i]
  }

  lemma {:induction false} KeptFacesAreClipped(s: ConvexShape, pp: Vec3, pn: Vec3, k: nat)
    requires WellFormed(s) && k <= |s.faces|
    ensures ClippedFrom(KeptFaces(s, pp, pn, k), s, pp, pn, k)
  {
    if k > 0 {
      KeptFacesAreClipped(s, pp, pn, k - 1);
      var prev := KeptFaces(s, pp, pn, k - 1);
      var r := KeptFaces(s, pp, pn, k);
      forall m | 0 <= m < |r.faces|
        ensures exists i :: 0 <= i < k && r.faces[m] == ClipSpec(s.faces[i], pp, pn) && r.isCut[m] == s.isCut[i]
      {
        if m < |prev.faces| {
          assert r.faces[m] == prev.faces[m] && r.isCut[m] == prev.isCut[m];
          var i :| 0 <= i < k - 1 && prev.faces[m] == ClipSpec(s.faces[i], pp, pn) &&
            prev.isCut[m] == s.isCut[i];
          assert r.faces[m] == ClipSpec(s.faces[i], pp, pn) && r.isCut[m] == s.isCut[i];
        } else {
          assert r.faces[m] == ClipSpec(s.faces[k - 1], pp, pn) && r.isCut[m] == s.isCut[k - 1];
        }
      }
    }
  }

  /** The cap candidates collected from the first k faces. */
  function CapCandidates(s: ConvexShape, pp: Vec3, pn: Vec3, k: nat): (r: seq<Vec3>)
    requires WellFormed(s) && k <= |s.faces|
  {
    if k == 0 then [] else CapCandidates(s, pp, pn, k - 1) + FaceCandidates(s.faces[k - 1], pp, pn)
  }

  /** The cap points one face contributes: the near-plane points of its clipped polygon,
      when that polygon survives. */
  function FaceCandidates(face: seq<Vec3>, pp: Vec3, pn: Vec3): seq<Vec3> {
    var clipped := ClipSpec(face, pp, pn);
    if |clipped| >= 3 then NearPoints(clipped, pp, pn) else []
  }

  /** Every cap candidate is near the plane. */
  lemma {:induction false} CandidatesNearPlane(s: ConvexShape, pp: Vec3, pn: Vec3, k: nat)
    requires WellFormed(s) && k <= |s.faces|
    ensures forall q :: q in CapCandidates(s, pp, pn, k) ==> NearPlane(q, pp, pn)
  {
    if k > 0 {
      CandidatesNearPlane(s, pp, pn, k - 1);
      NearPointsAreNear(ClipSpec(s.faces[k - 1], pp, pn), pp, pn);
      var prev := CapCandidates(s, pp, pn, k - 1);
      var extra := FaceCandidates(s.faces[k - 1], pp, pn);
      assert CapCandidates(s, pp, pn, k) == prev + extra;
    }
  }

  /** Two cap points closer than 0.01 (squared distance below 0.0001) are duplicates. */
  predicate Close(p: Vec3, u: Vec3) {
    LengthSq(p.Sub(u)) < 0.0001
  }

  ghost predicate HasClose(p: Vec3, us: seq<Vec3>) {
    exists m :: 0 <= m < |us| && Close(p, us[m])
  }

  /** The cap points with near-duplicates dropped, keeping the first of each cluster. */
  ghost function Dedup(ps: seq<Vec3>): (r: seq<Vec3>)
    ensures |r| <= |ps|
    ensures forall q :: q in r ==> q in ps
  {
    if ps == [] then []
    else
      var prev := Dedup(ps[..|ps| - 1]);
      var p := ps[|ps| - 1];
      if HasClose(p, prev) then prev else prev + [p]
  }

  /** The kept points are pairwise at least 0.01 apart, and every point of ps is kept or has
      a close kept point. */
  lemma {:induction false} DedupSeparatesAndCovers(ps: seq<Vec3>)
    ensures forall i, j :: 0 <= i < j < |Dedup(ps)| ==> !Close(Dedup(ps)[j], Dedup(ps)[i])
    ensures forall k :: 0 <= k < |ps| ==> ps[k] in Dedup(ps) || HasClose(ps[k], Dedup(ps))
  {
    if ps != [] {
      var init := ps[..|ps| - 1];
      DedupSeparatesAndCovers(init);
      var prev := Dedup(init);
      var p := ps[|ps| - 1];
      var r := Dedup(ps);
      if HasClose(p, prev) {
        assert r == prev;
        forall k | 0 <= k < |ps| ensures ps[k] in r || HasClose(ps[k], r) {
          if k < |ps| - 1 {
            assert ps[k] == init[k];
          }
        }
      } else {
        assert r == prev + [p];
        forall i, j | 0 <= i < j < |r| ensures !Close(r[j], r[i]) {
          assert r[i] == prev[i];
          if j < |prev| {
            assert r[j] == prev[j];
          }
        }
        forall k | 0 <= k < |ps| ensures ps[k] in r || HasClose(ps[k], r) {
          if k < |ps| - 1 {
            assert ps[k] == init[k];
            if ps[k] !in prev {
              var m :| 0 <= m < |prev| && Close(ps[k], prev[m]);
              assert r[m] == prev[m];
            }
          }
        }
      }
    }
  }

  /** The de-duplication loop of `clipShapeByPlane`. */
  method DedupCapPoints(ps: seq<Vec3>) returns (unique: seq<Vec3>)
    ensures unique == Dedup(ps)
  {
    unique := [];
    for i := 0 to |ps|
      invariant unique == Dedup(ps[..i])
    {
      var p := ps[i];
      var dup := false;
      var k := 0;
      while k < |unique|
        invariant 0 <= k <= |unique|
        invariant dup ==> HasClose(p, unique)
        invariant !dup ==> forall m :: 0 <= m < k ==> !Close(p, unique[m])
      {
        if Close(p, unique[k]) {
          dup := true;
          break;
        }
        k := k + 1;
      }
      assert ps[..i + 1][..i] == ps[..i];
      if !dup {
        unique := unique + [p];
      }
    }
    assert ps[..|ps|] == ps;
  }

  /** A permutation of a sequence. */
  ghost predicate Permutes(order: seq<Vec3> -> seq<Vec3>) {
    forall ps {:trigger order(ps)} :: multiset(order(ps)) == multiset(ps)
  }

  /** r is what clipping s by the plane yields: the faces of s that keep at least 3 vertices
      after clipping, clipped and in order with their flags, followed by a cap face, flagged as
      cut, holding exactly the de-duplicated cap candidates in some order, exactly when there
      are at least 3 of those; otherwise no cap. */
  ghost predicate CutOf(r: ConvexShape, s: ConvexShape, pp: Vec3, pn: Vec3)
    requires WellFormed(s)
  {
    var kept := KeptFaces(s, pp, pn, |s.faces|);
    var unique := Dedup(CapCandidates(s, pp, pn, |s.faces|));
    if |unique| >= 3 then
      |r.faces| == |kept.faces| + 1 && |r.isCut| == |r.faces| &&
      r.faces[..|kept.faces|] == kept.faces && r.isCut[..|kept.faces|] == kept.isCut &&
      r.isCut[|kept.faces|] && multiset(r.faces[|kept.faces|]) == multiset(unique)
    else
      r == kept
  }

  /** `clipShapeByPlane`: clip every face, drop those left with fewer than 3 vertices, and
      close the piece with a cap face (flagged as a cut face) made of the distinct clipped
      points lying on the plane, when there are at least 3 of them. The angular sort of the cap
      around its centroid is the `order` parameter, of which only being a permutation is used. */
  method ClipShapeByPlane(s: ConvexShape, pp: Vec3, pn: Vec3, order: seq<Vec3> -> seq<Vec3>)
    returns (r: ConvexShape)
    requires WellFormed(s)
    requires Permutes(order)
    ensures WellFormed(r)
    ensures forall m :: 0 <= m < |r.faces| ==> |r.faces[m]| >= 3
    ensures CutOf(r, s, pp, pn)
  {
    var faces: seq<seq<Vec3>> := [];
    var flags: seq<bool> := [];
    var capPoints: seq<Vec3> := [];
    for fi := 0 to |s.faces|
      invariant ConvexShape(faces, flags) == KeptFaces(s, pp, pn, fi)
      invariant capPoints == CapCandidates(s, pp, pn, fi)
    {
      faces, flags, capPoints := ClipFace(s, pp, pn, fi, faces, flags, capPoints);
    }
    r := ConvexShape(faces, flags);
    assert faces[..|faces|] == faces && flags[..|flags|] == flags;
    if |capPoints| >= 3 {
      var unique := DedupCapPoints(capPoints);
      if |unique| >= 3 {
        var cap := order(unique);
        CappedIsCut(s, pp, pn, r, cap);
        r := ConvexShape(faces + [cap], flags + [true]);
      }
    }
  }

  /** One face of the loop of `clipShapeByPlane`: face fi is clipped, and kept together
      with its near-plane points when at least 3 vertices remain. */
  method ClipFace(s: ConvexShape, pp: Vec3, pn: Vec3, fi: nat,
                  faces: seq<seq<Vec3>>, flags: seq<bool>, capPoints: seq<Vec3>)
    returns (faces': seq<seq<Vec3>>, flags': seq<bool>, capPoints': seq<Vec3>)
    requires WellFormed(s) && fi < |s.faces|
    requires ConvexShape(faces, flags) == KeptFaces(s, pp, pn, fi)
    requires capPoints == CapCandidates(s, pp, pn, fi)
    ensures ConvexShape(faces', flags') == KeptFaces(s, pp, pn, fi + 1)
    ensures capPoints' == CapCandidates(s, pp, pn, fi + 1)
  {
    faces', flags', capPoints' := faces, flags, capPoints;
    var clipped := ClipPolygonByPlane(s.faces[fi], pp, pn);
    if |clipped| >= 3 {
      faces' := faces + [clipped];
      flags' := flags + [s.isCut[fi]];
      var near := CollectNearPoints(clipped, pp, pn);
      capPoints' := capPoints + near;
    }
  }

  /** The kept faces followed by a cap that permutes the de-duplicated candidates form a cut
      of s, when there are at least 3 of those, and the cap has as many points as they do. */
  lemma CappedIsCut(s: ConvexShape, pp: Vec3, pn: Vec3, kept: ConvexShape, cap: seq<Vec3>)
    requires WellFormed(s) && kept == KeptFaces(s, pp, pn, |s.faces|)
    requires multiset(cap) == multiset(Dedup(CapCandidates(s, pp, pn, |s.faces|)))
    requires |Dedup(CapCandidates(s, pp, pn, |s.faces|))| >= 3
    ensures |cap| == |Dedup(CapCandidates(s, pp, pn, |s.faces|))|
    ensures CutOf(ConvexShape(kept.faces + [cap], kept.isCut + [true]), s, pp, pn)
  {
    var unique := Dedup(CapCandidates(s, pp, pn, |s.faces|));
    assert |cap| == |multiset(cap)| == |multiset(unique)| == |unique|;
    var r := ConvexShape(kept.faces + [cap], kept.isCut + [true]);
    assert r.faces[..|kept.faces|] == kept.faces && r.isCut[..|kept.faces|] == kept.isCut;
  }

  /** Every point of a cap face lies within 0.01 of the cutting plane. */
  lemma CapNearPlane(s: ConvexShape, pp: Vec3, pn: Vec3, cap: seq<Vec3>)
    requires WellFormed(s)
    requires multiset(cap) == multiset(Dedup(CapCandidates(s, pp, pn, |s.faces|)))
    ensures forall q :: q in cap ==> NearPlane(q, pp, pn)
  {
    var ds := Dedup(CapCandidates(s, pp, pn, |s.faces|));
    CandidatesNearPlane(s, pp, pn, |s.faces|);
    forall q | q in cap
      ensures NearPlane(q, pp, pn)
    {
      assert q in multiset(cap);
      assert q in multiset(ds);
      var k :| 0 <= k < |ds| && ds[k] == q;
    }
  }

  /** The sum and the number of the points of a polygon and of a list of faces. */
  function FaceSum(ps: seq<Vec3>): Vec3 {
    if ps == [] then ZERO else FaceSum(ps[..|ps| - 1]).Add(ps[|ps| - 1])
  }

  function PointSum(faces: seq<seq<Vec3>>): Vec3 {
    if faces == [] then ZERO else PointSum(faces[..|faces| - 1]).Add(FaceSum(faces[|faces| - 1]))
  }

  function PointCount(faces: seq<seq<Vec3>>): nat {
    if faces == [] then 0 else PointCount(faces[..|faces| - 1]) + |faces[|faces| - 1]|
  }

  lemma {:induction false} NoPointsSumToZero(faces: seq<seq<Vec3>>)
    requires PointCount(faces) == 0
    ensures PointSum(faces) == ZERO
  {
    if faces != [] {
      NoPointsSumToZero(faces[..|faces| - 1]);
      assert faces[|faces| - 1] == [];
    }
  }

  /** The average of all face points (a point shared by several faces counts once per face);
      the origin for a shape without points. */
  function Centroid(s: ConvexShape): (c: Vec3)
    ensures PointCount(s.faces) == 0 ==> c == ZERO
    ensures PointCount(s.faces) > 0 ==> c.Scale(PointCount(s.faces) as real) == PointSum(s.faces)
  {
    var n := PointCount(s.faces);
    var sum := PointSum(s.faces);
    if n > 0 then
      assert (1.0 / n as real) * (n as real) == 1.0;
      sum.Scale(1.0 / n as real)
    else
      NoPointsSumToZero(s.faces);
      sum
  }

  /** `shapeCenter`. */
  method ShapeCenter(s: ConvexShape) returns (c: Vec3)
    ensures c == Centroid(s)
  {
    var sum := ZERO;
    var count := 0;
    for fi := 0 to |s.faces|
      invariant sum == PointSum(s.faces[..fi]) && count == PointCount(s.faces[..fi])
    {
      var face := s.faces[fi];
      var base := sum;
      for k := 0 to |face|
        invariant sum == base.Add(FaceSum(face[..k]))
        invariant count == PointCount(s.faces[..fi]) + k
      {
        assert face[..k + 1][..k] == face[..k];
        sum := sum.Add(face[k]);
        count := count + 1;
      }
      assert face[..|face|] == face;
      assert s.faces[..fi + 1][..fi] == s.faces[..fi];
    }
    assert s.faces[..|s.faces|] == s.faces;
    c := if count > 0 then sum.Scale(1.0 / count as real) else sum;
  }

  /** The volume of the tetrahedron spanned by three edge vectors from the apex. */
  function Tetra(a: Vec3, b: Vec3, d: Vec3): (v: real)
    ensures v >= 0.0
  {
    Abs(Dot(a, Cross(b, d))) / 6.0
  }

  /** The tetrahedra of the fan triangles (face[0], face[i], face[i+1]), 1 <= i < k, with
      apex c. */
  function FanVolume(face: seq<Vec3>, c: Vec3, k: nat): (v: real)
    requires k < |face|
    ensures v >= 0.0
  {
    if k <= 1 then 0.0
    else FanVolume(face, c, k - 1) + Tetra(face[0].Sub(c), face[k - 1].Sub(c), face[k].Sub(c))
  }

  /** The volume estimate of a list of faces, skipping faces of fewer than 3 vertices. */
  function FacesVolume(faces: seq<seq<Vec3>>, c: Vec3): (v: real)
    ensures v >= 0.0
    ensures (forall f :: 0 <= f < |faces| ==> |faces[f]| < 3) ==> v == 0.0
  {
    if faces == [] then 0.0
    else
      var face := faces[|faces| - 1];
      FacesVolume(faces[..|faces| - 1], c) + (if |face| < 3 then 0.0 else FanVolume(face, c, |face| - 1))
  }

  /** `shapeVolume`: the sum of the tetrahedra from the centroid to every fan triangle of
      every face; never negative, and zero for a shape without a proper face. */
  method ShapeVolume(s: ConvexShape) returns (vol: real)
    ensures vol == FacesVolume(s.faces, Centroid(s))
    ensures vol >= 0.0
  {
    var c := ShapeCenter(s);
    vol := 0.0;
    for fi := 0 to |s.faces|
      invariant vol == FacesVolume(s.faces[..fi], c)
    {
      var face := s.faces[fi];
      ghost var upTo := s.faces[..fi + 1];
      assert upTo[..fi] == s.faces[..fi] && upTo[fi] == face;
      if |face| >= 3 {
        var base := vol;
        for i := 1 to |face| - 1
          invariant vol == base + FanVolume(face, c, i)
        {
          var a := face[0].Sub(c);
          var b := face[i].Sub(c);
          var d := face[i + 1].Sub(c);
          vol := vol + Tetra(a, b, d);
        }
      }
      assert vol == FacesVolume(s.faces[..fi], c) + (if |face| < 3 then 0.0 else FanVolume(face, c, |face| - 1));
    }
    assert s.faces[..|s.faces|] == s.faces;
  }

  lemma FaceSumOfQuad(q: seq<Vec3>)
    requires |q| == 4
    ensures FaceSum(q) == q[0].Add(q[1]).Add(q[2]).Add(q[3])
  {
    var p3 := q[..3];
    var p2 := p3[..2];
    var p1 := p2[..1];
    assert p1 == [q[0]] && p1[..0] == [];
    assert FaceSum(p1) == ZERO.Add(q[0]);
    assert p2 == [q[0], q[1]] && p2[1] == q[1];
    assert FaceSum(p2) == FaceSum(p1).Add(q[1]);
    assert p3[2] == q[2];
    assert FaceSum(p3) == FaceSum(p2).Add(q[2]);
    assert FaceSum(q) == FaceSum(p3).Add(q[3]);
  }

  lemma SixFacesSum(fs: seq<seq<Vec3>>)
    requires |fs| == 6
    ensures PointSum(fs) == FaceSum(fs[0]).Add(FaceSum(fs[1])).Add(FaceSum(fs[2]))
      .Add(FaceSum(fs[3])).Add(FaceSum(fs[4])).Add(FaceSum(fs[5]))
  {
    SixPrefixes(fs);
    var p5 := fs[..5];
    var p4 := p5[..4];
    var p3 := p4[..3];
    var p2 := p3[..2];
    var p1 := p2[..1];
    assert PointSum(p1) == FaceSum(fs[0]);
    assert PointSum(p2) == PointSum(p1).Add(FaceSum(fs[1]));
    assert PointSum(p3) == PointSum(p2).Add(FaceSum(fs[2]));
    assert PointSum(p4) == PointSum(p3).Add(FaceSum(fs[3]));
    assert PointSum(p5) == PointSum(p4).Add(FaceSum(fs[4]));
  }

  lemma SixFacesCount(fs: seq<seq<Vec3>>)
    requires |fs| == 6
    ensures PointCount(fs) == |fs[0]| + |fs[1]| + |fs[2]| + |fs[3]| + |fs[4]| + |fs[5]|
  {
    SixPrefixes(fs);
    var p5 := fs[..5];
    var p4 := p5[..4];
    var p3 := p4[..3];
    var p2 := p3[..2];
    var p1 := p2[..1];
    assert PointCount(p1) == |fs[0]|;
    assert PointCount(p2) == PointCount(p1) + |fs[1]|;
    assert PointCount(p3) == PointCount(p2) + |fs[2]|;
    assert PointCount(p4) == PointCount(p3) + |fs[3]|;
    assert PointCount(p5) == PointCount(p4) + |fs[4]|;
  }

  lemma SixPrefixes(fs: seq<seq<Vec3>>)
    requires |fs| == 6
    ensures fs[..5] == [fs[0], fs[1], fs[2], fs[3], fs[4]]
    ensures fs[..5][..4] == [fs[0], fs[1], fs[2], fs[3]]
    ensures fs[..5][..4][..3] == [fs[0], fs[1], fs[2]]
    ensures fs[..5][..4][..3][..2] == [fs[0], fs[1]]
    ensures fs[..5][..4][..3][..2][..1] == [fs[0]]
    ensures fs[..5][..4][..3][..2][..1][..0] == []
  {
  }

  /** The centroid of a fresh cube shape is its centre. */
  lemma CubeCentroid(c: Vec3, h: real)
    ensures Centroid(MakeCubeShape(c, h)) == c
  {
    var fs := MakeCubeShape(c, h).faces;
    SixFacesSum(fs);
    SixFacesCount(fs);
    var x, y, z := 4.0 * c.x, 4.0 * c.y, 4.0 * c.z;
    FaceSumOfQuad(fs[0]);
    assert FaceSum(fs[0]) == Vec3(x, y, z - 4.0 * h);
    FaceSumOfQuad(fs[1]);
    assert FaceSum(fs[1]) == Vec3(x, y, z + 4.0 * h);
    FaceSumOfQuad(fs[2]);
    assert FaceSum(fs[2]) == Vec3(x - 4.0 * h, y, z);
    FaceSumOfQuad(fs[3]);
    assert FaceSum(fs[3]) == Vec3(x + 4.0 * h, y, z);
    FaceSumOfQuad(fs[4]);
    assert FaceSum(fs[4]) == Vec3(x, y - 4.0 * h, z);
    FaceSumOfQuad(fs[5]);
    assert FaceSum(fs[5]) == Vec3(x, y + 4.0 * h, z);
    assert PointSum(fs) == c.Scale(24.0);
    ScaleCancels(Centroid(MakeCubeShape(c, h)), c, 24.0);
  }

  lemma ScaleCancels(a: Vec3, b: Vec3, n: real)
    requires n != 0.0 && a.Scale(n) == b.Scale(n)
    ensures a == b
  {
    assert a.x * n == b.x * n && a.y * n == b.y * n && a.z * n == b.z * n;
    assert (a.x - b.x) * n == 0.0 && (a.y - b.y) * n == 0.0 && (a.z - b.z) * n == 0.0;
  }
}
