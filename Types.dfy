/** The value types shared by every part of the simulation (TYPES.cpp): vectors over the
    reals, the 4x4 identity matrix, the clamp helper, the Block and Fragment records and the
    process-wide pseudo-random generator. Floating-point numbers are modelled as `real`. */
module Types {

  datatype Option<T> = None | Some(value: T)

  /** A three-component vector; the compound operators `+=`, `-=` and `*=` of the source
      are these same operations followed by an assignment. */
  datatype Vec3 = Vec3(x: real, y: real, z: real) {
    function Add(o: Vec3): Vec3 { Vec3(x + o.x, y + o.y, z + o.z) }
    function Sub(o: Vec3): Vec3 { Vec3(x - o.x, y - o.y, z - o.z) }
    function Scale(s: real): Vec3 { Vec3(x * s, y * s, z * s) }
    function Neg(): Vec3 { Vec3(-x, -y, -z) }
  }

  const ZERO: Vec3 := Vec3(0.0, 0.0, 0.0)

  function Dot(a: Vec3, b: Vec3): real { a.x * b.x + a.y * b.y + a.z * b.z }

  function Cross(a: Vec3, b: Vec3): Vec3 {
    Vec3(a.y * b.z - a.z * b.y, a.z * b.x - a.x * b.z, a.x * b.y - a.y * b.x)
  }

  function LengthSq(v: Vec3): real { v.x * v.x + v.y * v.y + v.z * v.z }

  /** `length()`: the square root is supplied by the caller. */
  function Length(v: Vec3, sqrt: real -> real): real { sqrt(LengthSq(v)) }

  /** A square root over the non-negative reals. */
  ghost predicate IsSqrt(sqrt: real -> real) {
    forall a: real {:trigger sqrt(a)} :: 0.0 <= a ==> 0.0 <= sqrt(a) && sqrt(a) * sqrt(a) == a
  }

  /** `normalized()`: the zero vector for a length at most 1e-8, otherwise the vector divided
      by its length, which then has unit length. */
  function Normalized(v: Vec3, sqrt: real -> real): (r: Vec3)
    ensures Length(v, sqrt) <= 0.00000001 ==> r == ZERO
    ensures IsSqrt(sqrt) && Length(v, sqrt) > 0.00000001 ==> LengthSq(r) == 1.0
  {
    var l := Length(v, sqrt);
    if l > 0.00000001 then
      UnitAfterDivision(v, l, sqrt);
      v.Scale(1.0 / l)
    else ZERO
  }

  lemma UnitAfterDivision(v: Vec3, l: real, sqrt: real -> real)
    requires l == Length(v, sqrt) && l > 0.00000001
    ensures IsSqrt(sqrt) ==> LengthSq(v.Scale(1.0 / l)) == 1.0
  {
    if IsSqrt(sqrt) {
      assert l * l == LengthSq(v);
      var s := 1.0 / l;
      calc {
        LengthSq(v.Scale(s));
        (v.x * s) * (v.x * s) + (v.y * s) * (v.y * s) + (v.z * s) * (v.z * s);
        LengthSq(v) * (s * s);
        (l * l) * (s * s);
        (l * s) * (l * s);
      }
      assert l * s == 1.0;
    }
  }

  lemma AddThenSubCancels(a: Vec3, b: Vec3)
    ensures a.Add(b).Sub(b) == a
  {}

  lemma ScaleByOne(a: Vec3)
    ensures a.Scale(1.0) == a
  {}

  lemma DotSymmetric(a: Vec3, b: Vec3)
    ensures Dot(a, b) == Dot(b, a)
  {}

  lemma LengthSqIsSelfDot(v: Vec3)
    ensures LengthSq(v) == Dot(v, v)
    ensures LengthSq(v) >= 0.0
  {
    assert v.x * v.x >= 0.0 && v.y * v.y >= 0.0 && v.z * v.z >= 0.0;
  }

  lemma CrossIsOrthogonal(a: Vec3, b: Vec3)
    ensures Dot(Cross(a, b), a) == 0.0
    ensures Dot(Cross(a, b), b) == 0.0
  {}

  lemma CrossAntiCommutes(a: Vec3, b: Vec3)
    ensures Cross(a, b) == Cross(b, a).Neg()
  {}

  /** Negation is the additive inverse, and equals subtracting from zero. */
  lemma NegCancels(a: Vec3)
    ensures a.Add(a.Neg()) == ZERO
    ensures a.Neg() == ZERO.Sub(a)
  {}

  /** Scaling by s scales the squared length by s * s. */
  lemma ScaleScalesLengthSq(a: Vec3, s: real)
    ensures LengthSq(a.Scale(s)) == s * s * LengthSq(a)
  {}

  /** For a true square root, the length is non-negative and squares to lengthSq. */
  lemma LengthIsRoot(v: Vec3, sqrt: real -> real)
    requires IsSqrt(sqrt)
    ensures Length(v, sqrt) >= 0.0
    ensures Length(v, sqrt) * Length(v, sqrt) == LengthSq(v)
  {
    LengthSqIsSelfDot(v);
  }

  /** `fabsf`. */
  function Abs(v: real): (r: real)
    ensures r >= 0.0 && (r == v || r == -v)
  {
    if v < 0.0 then -v else v
  }

  /** `std::min` and the larger of two values. */
  function Min(a: real, b: real): (r: real)
    ensures r <= a && r <= b && (r == a || r == b)
  {
    if b < a then b else a
  }

  function Max(a: real, b: real): (r: real)
    ensures r >= a && r >= b && (r == a || r == b)
  {
    if a < b then b else a
  }

  /** `clampf`: lo below the range, hi above it, v itself inside it. */
  function Clamp(v: real, lo: real, hi: real): (r: real)
    ensures lo <= hi ==> lo <= r <= hi
    ensures lo <= v <= hi ==> r == v
    ensures v < lo ==> r == lo
  {
    if v < lo then lo else if v > hi then hi else v
  }

  lemma ClampIsIdempotent(v: real, lo: real, hi: real)
    requires lo <= hi
    ensures Clamp(Clamp(v, lo, hi), lo, hi) == Clamp(v, lo, hi)
  {}

  /** `Mat4::identity`, in the source's column-major layout of 16 entries. */
  function Identity(): (m: seq<real>)
    ensures |m| == 16
    ensures forall i :: 0 <= i < 16 ==> m[i] == if i in {0, 5, 10, 15} then 1.0 else 0.0
  {
    seq(16, i => if i % 5 == 0 then 1.0 else 0.0)
  }

  /** The side of a world block; the player's collision cylinder is treated as a box of
      PLAYER_RADIUS half-width and PLAYER_HEIGHT height; REACH_DIST bounds the targeting ray. */
  const BLOCK_SIZE: real := 1.0
  const PLAYER_HEIGHT: real := 1.7
  const PLAYER_RADIUS: real := 0.3
  const REACH_DIST: real := 8.0

  datatype Vertex = Vertex(pos: Vec3, normal: Vec3, color: Vec3)

  /** A unit voxel of the world; `kind` is the source's `type` tag
      (0 ground, 1 street, 2 building, 3 decoration). */
  datatype Block = Block(position: Vec3, color: Vec3, active: bool, kind: int)

  /** A simulated debris piece with its local mesh. Vertex indices are unbounded naturals. */
  datatype Fragment = Fragment(
    position: Vec3, velocity: Vec3, rotation: Vec3, rotSpeed: Vec3, color: Vec3, scale: Vec3,
    vertices: seq<Vertex>, indices: seq<nat>,
    lifetime: real, maxLifetime: real, eternal: bool, active: bool)

  /** Scaling by a draw in [0, 1) does not leave [0, d] (and stays below a positive d). */
  lemma ProductBelow(d: real, u: real)
    requires 0.0 <= d && 0.0 <= u < 1.0
    ensures 0.0 <= d * u <= d
    ensures 0.0 < d ==> d * u < d
  {
    assert d * (1.0 - u) >= 0.0;
  }

  /** A draw of the underlying generator, scaled to [0, 1). */
  type Unit = r: real | 0.0 <= r < 1.0 witness 0.0

  /** The shared generator `rng`: an arbitrary fixed stream of draws, consumed in order.
      The distributions map one draw into their range. */
  class Rng {
    const stream: nat -> Unit
    var drawn: nat

    constructor (stream: nat -> Unit)
      ensures this.stream == stream && drawn == 0
    {
      this.stream := stream;
      drawn := 0;
    }

    /** `std::uniform_real_distribution(lo, hi)`. */
    method Real(lo: real, hi: real) returns (r: real)
      requires lo <= hi
      modifies this`drawn
      ensures lo <= r <= hi
      ensures r == lo + (hi - lo) * stream(old(drawn))
      ensures drawn == old(drawn) + 1
    {
      var u: real := stream(drawn);
      var span := hi - lo;
      var offset := span * u;
      ProductBelow(span, u);
      r := lo + offset;
      drawn := drawn + 1;
    }

    /** `std::uniform_int_distribution(lo, hi)`. */
    method Int(lo: int, hi: int) returns (r: int)
      requires lo <= hi
      modifies this`drawn
      ensures lo <= r <= hi
      ensures r == lo + (((hi - lo + 1) as real) * stream(old(drawn))).Floor
      ensures drawn == old(drawn) + 1
    {
      var u: real := stream(drawn);
      var n := hi - lo + 1;
      var scaled := (n as real) * u;
      ProductBelow(n as real, u);
      var k := scaled.Floor;
      r := lo + k;
      drawn := drawn + 1;
    }
  }
}
