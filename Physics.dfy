/** The per-frame debris step of BLOCK_PHYSICS.cpp: gravity with a terminal speed, ground
    contact, resolution of the first overlapping neighbour block found through the grid,
    ground friction, the sleep rule, lifetime retirement, and the compaction of the fragment
    list. The helpers of the source update `Vec3&` arguments; here they take the vectors in
    and return their new values. Air drag, which needs a square root and a normalisation, is
    a caller-supplied function `drag`. */
module Physics {
  import opened Types
  import opened Grid

  const GRAVITY: real := 9.81
  const GROUND_FRICTION: real := 0.85
  const BOUNCE_DAMPING: real := 0.2
  const ANGULAR_DAMPING: real := 0.92
  const MIN_VELOCITY: real := 0.03
  const MIN_ANGULAR: real := 0.05
  const GROUND_Y: real := -0.3
  const TERMINAL_VELOCITY: real := 20.0
  const MAX_ANGULAR_SPEED: real := 3.0
  const SPIN_TRANSFER: real := 0.08
  /** Half the side of a world block. */
  const BLOCK_HALF: real := 0.5
  /** Fragments falling below this height are retired. */
  const KILL_Y: real := -50.0

  /** Every spin component lies in [-3, 3]. */
  predicate SpinBounded(s: Vec3) {
    -MAX_ANGULAR_SPEED <= s.x <= MAX_ANGULAR_SPEED &&
    -MAX_ANGULAR_SPEED <= s.y <= MAX_ANGULAR_SPEED &&
    -MAX_ANGULAR_SPEED <= s.z <= MAX_ANGULAR_SPEED
  }

  /** The spin with each component clamped to [-3, 3]. */
  function ClampedSpin(s: Vec3): (r: Vec3)
    ensures SpinBounded(r)
    ensures SpinBounded(s) ==> r == s
  {
    Vec3(Clamp(s.x, -MAX_ANGULAR_SPEED, MAX_ANGULAR_SPEED),
         Clamp(s.y, -MAX_ANGULAR_SPEED, MAX_ANGULAR_SPEED),
         Clamp(s.z, -MAX_ANGULAR_SPEED, MAX_ANGULAR_SPEED))
  }

  /** `clampAngularSpeed`: each component is cut to [-3, 3] independently. */
  method ClampAngularSpeed(s: Vec3) returns (r: Vec3)
    ensures r == ClampedSpin(s)
    ensures SpinBounded(r)
    ensures SpinBounded(s) ==> r == s
  {
    r := s;
    if r.x > MAX_ANGULAR_SPEED { r := r.(x := MAX_ANGULAR_SPEED); }
    if r.x < -MAX_ANGULAR_SPEED { r := r.(x := -MAX_ANGULAR_SPEED); }
    if r.y > MAX_ANGULAR_SPEED { r := r.(y := MAX_ANGULAR_SPEED); }
    if r.y < -MAX_ANGULAR_SPEED { r := r.(y := -MAX_ANGULAR_SPEED); }
    if r.z > MAX_ANGULAR_SPEED { r := r.(z := MAX_ANGULAR_SPEED); }
    if r.z < -MAX_ANGULAR_SPEED { r := r.(z := -MAX_ANGULAR_SPEED); }
  }

  /** `applyGravity`: only the vertical component changes; it falls by g*dt but never below
      the terminal velocity. */
  method ApplyGravity(vel: Vec3, dt: real) returns (v: Vec3)
    ensures v == Fallen(vel, dt)
    ensures v.x == vel.x && v.z == vel.z && v.y >= -TERMINAL_VELOCITY
    ensures vel.y - GRAVITY * dt >= -TERMINAL_VELOCITY ==> v.y == vel.y - GRAVITY * dt
    ensures dt >= 0.0 && vel.y >= -TERMINAL_VELOCITY ==> v.y <= vel.y
  {
    v := vel.(y := vel.y - GRAVITY * dt);
    if v.y < -TERMINAL_VELOCITY {
      v := v.(y := -TERMINAL_VELOCITY);
    }
  }

  /** Scaling by a factor in [0, 1] never increases a magnitude. */
  lemma ScaleShrinks(a: real, c: real)
    requires 0.0 <= c <= 1.0
    ensures Abs(a * c) <= Abs(a)
  {
    var m := a * c;
    if a >= 0.0 {
      assert 0.0 <= m <= a by {
        if c < 1.0 {
          ProductBelow(a, c);
        }
      }
    } else {
      assert 0.0 <= -m <= -a by {
        if c < 1.0 {
          ProductBelow(-a, c);
        }
        assert (-a) * c == -m;
      }
    }
  }

  /** The share of horizontal speed ground friction takes in one step, at most all of it. */
  function FrictionFactor(dt: real): real {
    Min(GROUND_FRICTION * dt * 15.0, 1.0)
  }

  /** The velocity with its horizontal components scaled by 1 - f. */
  function Slowed(vel: Vec3, f: real): Vec3 {
    Vec3(vel.x * (1.0 - f), vel.y, vel.z * (1.0 - f))
  }

  /** `applyGroundFriction`: the horizontal components are scaled by 1 - f with
      f = min(0.85 * dt * 15, 1), so for dt >= 0 they never grow; the vertical component is
      untouched and the spin is damped by 0.92. */
  method ApplyGroundFriction(vel: Vec3, spin: Vec3, dt: real) returns (v: Vec3, s: Vec3)
    ensures v == Slowed(vel, FrictionFactor(dt))
    ensures dt >= 0.0 ==> Abs(v.x) <= Abs(vel.x) && Abs(v.z) <= Abs(vel.z)
    ensures s == spin.Scale(ANGULAR_DAMPING)
    ensures SpinBounded(spin) ==> SpinBounded(s)
  {
    var friction := GROUND_FRICTION * dt * 15.0;
    if friction > 1.0 {
      friction := 1.0;
    }
    assert friction == FrictionFactor(dt);
    v := Vec3(vel.x * (1.0 - friction), vel.y, vel.z * (1.0 - friction));
    s := spin.Scale(ANGULAR_DAMPING);
    if dt >= 0.0 {
      ScaleShrinks(vel.x, 1.0 - friction);
      ScaleShrinks(vel.z, 1.0 - friction);
    }
  }

  /** Rolling contact: once the horizontal speed exceeds 0.1 (compared squared), part of the
      horizontal velocity is turned into spin about the x and z axes. */
  function RollSpin(s: Vec3, vel: Vec3): Vec3 {
    if vel.x * vel.x + vel.z * vel.z > 0.01
    then Vec3(s.x + vel.z * SPIN_TRANSFER, s.y, s.z - vel.x * SPIN_TRANSFER)
    else s
  }

  /** Rolling adds no spin about the vertical axis and none about the direction of travel:
      the spin added is perpendicular to the velocity, and nothing is added at low
      horizontal speed. */
  lemma RollSpinRolls(s: Vec3, vel: Vec3)
    ensures RollSpin(s, vel).y == s.y
    ensures Dot(RollSpin(s, vel).Sub(s), vel) == 0.0
    ensures vel.x * vel.x + vel.z * vel.z <= 0.01 ==> RollSpin(s, vel) == s
  {
    var d := RollSpin(s, vel).Sub(s);
    if vel.x * vel.x + vel.z * vel.z > 0.01 {
      assert d == Vec3(vel.z * SPIN_TRANSFER, 0.0, -vel.x * SPIN_TRANSFER);
    } else {
      assert d == ZERO;
    }
  }

  /** The height at which a fragment of the given size rests on the ground. */
  function GroundLevel(fragSize: real): real {
    GROUND_Y + fragSize * 0.5
  }

  /** A fragment's motion state: position, velocity and spin. */
  datatype Motion = Motion(pos: Vec3, vel: Vec3, spin: Vec3)

  /** The velocity after a ground bounce: the vertical component reflected and damped by
      0.2, the horizontal ones cut by 30%. */
  function Bounced(vel: Vec3): Vec3 {
    Vec3(vel.x * 0.7, -vel.y * BOUNCE_DAMPING, vel.z * 0.7)
  }

  /** The motion `handleGroundCollision` leaves behind. */
  function GroundResponse(m: Motion, fragSize: real): Motion {
    var level := GroundLevel(fragSize);
    if m.pos.y > level then m
    else if m.vel.y < -0.3
    then Motion(m.pos.(y := level), Bounced(m.vel), ClampedSpin(RollSpin(m.spin.Scale(0.5), Bounced(m.vel))))
    else Motion(m.pos.(y := level), m.vel.(y := 0.0), m.spin)
  }

  /** `handleGroundCollision`: nothing happens above ground level (-0.3 plus half the
      fragment size). At or below it the fragment is put on the ground and its vertical
      velocity becomes non-negative: a fall faster than 0.3 bounces with damping 0.2, losing
      30% of horizontal speed and half its spin, anything slower stops. */
  method HandleGroundCollision(pos: Vec3, vel: Vec3, spin: Vec3, fragSize: real)
    returns (pos': Vec3, vel': Vec3, spin': Vec3, onGround: bool)
    ensures onGround <==> pos.y <= GroundLevel(fragSize)
    ensures !onGround ==> pos' == pos && vel' == vel && spin' == spin
    ensures onGround ==> pos' == pos.(y := GroundLevel(fragSize)) && vel'.y >= 0.0
    ensures onGround && vel.y < -0.3 ==>
      vel' == Bounced(vel) &&
      spin' == ClampedSpin(RollSpin(spin.Scale(0.5), vel'))
    ensures onGround && vel.y >= -0.3 ==> vel' == vel.(y := 0.0) && spin' == spin
    ensures SpinBounded(spin) ==> SpinBounded(spin')
    ensures Motion(pos', vel', spin') == GroundResponse(Motion(pos, vel, spin), fragSize)
  {
    var groundLevel := GroundLevel(fragSize);
    if pos.y > groundLevel {
      return pos, vel, spin, false;
    }
    pos' := pos.(y := groundLevel);
    if vel.y < -0.3 {
      vel' := Bounced(vel);
      spin' := spin.Scale(0.5);
      var hSpeedSq := vel'.x * vel'.x + vel'.z * vel'.z;
      if hSpeedSq > 0.01 {
        spin' := Vec3(spin'.x + vel'.z * SPIN_TRANSFER, spin'.y, spin'.z - vel'.x * SPIN_TRANSFER);
      }
      assert spin' == RollSpin(spin.Scale(0.5), vel');
      spin' := ClampAngularSpeed(spin');
    } else {
      vel' := vel.(y := 0.0);
      spin' := spin;
    }
    onGround := true;
  }

  datatype Axis = X | Y | Z

  function Coord(v: Vec3, a: Axis): real {
    match a
    case X => v.x
    case Y => v.y
    case Z => v.z
  }

  /** v with its a-coordinate replaced by c, the others kept. */
  function WithCoord(v: Vec3, a: Axis, c: real): (r: Vec3)
    ensures Coord(r, a) == c
    ensures forall b :: b != a ==> Coord(r, b) == Coord(v, b)
  {
    match a
    case X => v.(x := c)
    case Y => v.(y := c)
    case Z => v.(z := c)
  }

  /** The fragment's box (half-size hr about pos) strictly overlaps the block at bp. */
  predicate Overlaps(pos: Vec3, hr: real, bp: Vec3) {
    pos.x + hr > bp.x - BLOCK_HALF && pos.x - hr < bp.x + BLOCK_HALF &&
    pos.y + hr > bp.y - BLOCK_HALF && pos.y - hr < bp.y + BLOCK_HALF &&
    pos.z + hr > bp.z - BLOCK_HALF && pos.z - hr < bp.z + BLOCK_HALF
  }

  /** How deep the fragment's box reaches into the block along axis a. */
  function Penetration(pos: Vec3, hr: real, bp: Vec3, a: Axis): real {
    Min(Coord(pos, a) + hr - (Coord(bp, a) - BLOCK_HALF),
        (Coord(bp, a) + BLOCK_HALF) - (Coord(pos, a) - hr))
  }

  /** The boxes overlap exactly when the penetration along every axis is positive. */
  lemma OverlapsIffPenetrating(pos: Vec3, hr: real, bp: Vec3)
    ensures Overlaps(pos, hr, bp) <==>
      Penetration(pos, hr, bp, X) > 0.0 && Penetration(pos, hr, bp, Y) > 0.0 &&
      Penetration(pos, hr, bp, Z) > 0.0
  {}

  /** The axis a contact is resolved along: one of least penetration, where x wins only
      when strictly smaller than both others and y only when strictly smaller than z. */
  function ResolutionAxis(pos: Vec3, hr: real, bp: Vec3): (a: Axis)
    ensures forall b :: Penetration(pos, hr, bp, a) <= Penetration(pos, hr, bp, b)
    ensures a == X ==>
      Penetration(pos, hr, bp, X) < Penetration(pos, hr, bp, Y) &&
      Penetration(pos, hr, bp, X) < Penetration(pos, hr, bp, Z)
    ensures a == Y ==> Penetration(pos, hr, bp, Y) < Penetration(pos, hr, bp, Z)
  {
    var oX := Penetration(pos, hr, bp, X);
    var oY := Penetration(pos, hr, bp, Y);
    var oZ := Penetration(pos, hr, bp, Z);
    if oX < oY && oX < oZ then X else if oY < oZ then Y else Z
  }

  /** The state after a contact with the block at bp: the fragment is pushed out along the
      resolution axis to rest against the block face on its own side, that axis's velocity
      is reflected and damped by 0.2, and the spin is adjusted and clamped (y-axis contacts
      also lose 30% of horizontal speed and half the spin). */
  ghost predicate ResolvedAgainst(pos: Vec3, vel: Vec3, spin: Vec3, hr: real, bp: Vec3,
                                  pos': Vec3, vel': Vec3, spin': Vec3)
  {
    var a := ResolutionAxis(pos, hr, bp);
    var side := if Coord(pos, a) < Coord(bp, a) then -1.0 else 1.0;
    pos' == WithCoord(pos, a, Coord(bp, a) + side * (BLOCK_HALF + hr)) &&
    Coord(vel', a) == -Coord(vel, a) * BOUNCE_DAMPING &&
    match a
    case X => vel' == vel.(x := -vel.x * BOUNCE_DAMPING) &&
              spin' == ClampedSpin(spin.(y := spin.y + vel'.x * SPIN_TRANSFER))
    case Y => vel' == Vec3(vel.x * 0.7, -vel.y * BOUNCE_DAMPING, vel.z * 0.7) &&
              spin' == ClampedSpin(spin.Scale(0.5))
    case Z => vel' == vel.(z := -vel.z * BOUNCE_DAMPING) &&
              spin' == ClampedSpin(spin.(y := spin.y - vel'.z * SPIN_TRANSFER))
  }

  /** After a resolution the fragment no longer overlaps that block, and its spin is within
      bounds. */
  lemma ResolutionSeparates(pos: Vec3, vel: Vec3, spin: Vec3, hr: real, bp: Vec3,
                            pos': Vec3, vel': Vec3, spin': Vec3)
    requires ResolvedAgainst(pos, vel, spin, hr, bp, pos', vel', spin')
    ensures !Overlaps(pos', hr, bp)
    ensures SpinBounded(spin')
  {
    var a := ResolutionAxis(pos, hr, bp);
    assert Coord(pos', a) == Coord(bp, a) - (BLOCK_HALF + hr) ||
           Coord(pos', a) == Coord(bp, a) + (BLOCK_HALF + hr);
  }

  /** The body of `handleBlockCollision` for one overlapping block (BLOCK_PHYSICS.cpp lines
      94-116). */
  method ResolveContact(pos: Vec3, vel: Vec3, spin: Vec3, hr: real, bp: Vec3)
    returns (pos': Vec3, vel': Vec3, spin': Vec3)
    ensures ResolvedAgainst(pos, vel, spin, hr, bp, pos', vel', spin')
  {
    var h := BLOCK_HALF;
    var overlapX := Min(pos.x + hr - (bp.x - h), (bp.x + h) - (pos.x - hr));
    var overlapY := Min(pos.y + hr - (bp.y - h), (bp.y + h) - (pos.y - hr));
    var overlapZ := Min(pos.z + hr - (bp.z - h), (bp.z + h) - (pos.z - hr));
    assert overlapX == Penetration(pos, hr, bp, X) && overlapY == Penetration(pos, hr, bp, Y) &&
           overlapZ == Penetration(pos, hr, bp, Z);
    pos', vel', spin' := pos, vel, spin;
    if overlapX < overlapY && overlapX < overlapZ {
      assert ResolutionAxis(pos, hr, bp) == X;
      if pos.x < bp.x { pos' := pos'.(x := bp.x - h - hr); }
      else { pos' := pos'.(x := bp.x + h + hr); }
      vel' := vel'.(x := -vel.x * BOUNCE_DAMPING);
      spin' := spin'.(y := spin'.y + vel'.x * SPIN_TRANSFER);
    } else if overlapY < overlapZ {
      assert ResolutionAxis(pos, hr, bp) == Y;
      if pos.y < bp.y { pos' := pos'.(y := bp.y - h - hr); }
      else { pos' := pos'.(y := bp.y + h + hr); }
      vel' := vel'.(y := -vel.y * BOUNCE_DAMPING);
      vel' := vel'.(x := vel'.x * 0.7, z := vel'.z * 0.7);
      spin' := spin'.Scale(0.5);
    } else {
      assert ResolutionAxis(pos, hr, bp) == Z;
      if pos.z < bp.z { pos' := pos'.(z := bp.z - h - hr); }
      else { pos' := pos'.(z := bp.z + h + hr); }
      vel' := vel'.(z := -vel.z * BOUNCE_DAMPING);
      spin' := spin'.(y := spin'.y - vel'.z * SPIN_TRANSFER);
    }
    spin' := ClampAngularSpeed(spin');
  }

  /** An offset of the 3 x 3 x 3 neighbourhood scanned around the fragment's cell. */
  predicate InNeighbourhood(o: Voxel) {
    -1 <= o.x <= 1 && -1 <= o.y <= 1 && -1 <= o.z <= 1
  }

  /** The scan order: x offset outermost, then y, then z. */
  predicate ScannedBefore(a: Voxel, b: Voxel) {
    a.x < b.x || (a.x == b.x && (a.y < b.y || (a.y == b.y && a.z < b.z)))
  }

  /** The block index `get` returns for the neighbour at offset o of pos's cell. */
  function NeighbourIndex(g: BlockGrid, pos: Vec3, o: Voxel): int
    requires g.Valid()
    reads g.data
  {
    var c := VoxelOf(pos);
    g.Get(c.x + o.x, c.y + o.y, c.z + o.z)
  }

  /** The neighbour at offset o holds an active block that the fragment overlaps. */
  predicate Contact(g: BlockGrid, blocks: seq<Block>, pos: Vec3, hr: real, o: Voxel)
    requires IndexesInto(g, |blocks|)
    reads g.data
  {
    var idx := NeighbourIndex(g, pos, o);
    idx >= 0 && blocks[idx].active && Overlaps(pos, hr, blocks[idx].position)
  }

  /** No neighbour scanned before o is a contact. */
  ghost predicate ClearBefore(g: BlockGrid, blocks: seq<Block>, pos: Vec3, hr: real, o: Voxel)
    requires IndexesInto(g, |blocks|)
    reads g.data
  {
    forall p :: InNeighbourhood(p) && ScannedBefore(p, o) ==> !Contact(g, blocks, pos, hr, p)
  }

  /** o is a contact and no neighbour scanned before it is. */
  ghost predicate FirstContact(g: BlockGrid, blocks: seq<Block>, pos: Vec3, hr: real, o: Voxel)
    requires IndexesInto(g, |blocks|)
    reads g.data
  {
    InNeighbourhood(o) && Contact(g, blocks, pos, hr, o) && ClearBefore(g, blocks, pos, hr, o)
  }

  /** Moving the scan from o to o', where the neighbours scanned before o' are those scanned
      before o and o itself, keeps the scan clear when o is not a contact. */
  lemma ClearStep(g: BlockGrid, blocks: seq<Block>, pos: Vec3, hr: real, o: Voxel, o': Voxel)
    requires IndexesInto(g, |blocks|)
    requires ClearBefore(g, blocks, pos, hr, o)
    requires !InNeighbourhood(o) || !Contact(g, blocks, pos, hr, o)
    requires forall p :: InNeighbourhood(p) && ScannedBefore(p, o') ==> ScannedBefore(p, o) || p == o
    ensures ClearBefore(g, blocks, pos, hr, o')
  {}

  /** The neighbourhood scan of `handleBlockCollision`: the block index found at the first
      contact in scan order, or -1 when no neighbour is a contact. */
  method FindFirstContact(g: BlockGrid, blocks: seq<Block>, pos: Vec3, hr: real)
    returns (idx: int, ghost at: Voxel)
    requires IndexesInto(g, |blocks|)
    ensures -1 <= idx < |blocks|
    ensures idx == -1 <==> forall o :: InNeighbourhood(o) ==> !Contact(g, blocks, pos, hr, o)
    ensures idx >= 0 ==> FirstContact(g, blocks, pos, hr, at) && NeighbourIndex(g, pos, at) == idx
  {
    var cx := Round(pos.x);
    var cy := Round(pos.y);
    var cz := Round(pos.z);
    for dx := -1 to 2
      invariant ClearBefore(g, blocks, pos, hr, Voxel(dx, -1, -1))
    {
      for dy := -1 to 2
        invariant ClearBefore(g, blocks, pos, hr, Voxel(dx, dy, -1))
      {
        for dz := -1 to 2
          invariant ClearBefore(g, blocks, pos, hr, Voxel(dx, dy, dz))
        {
          var i := g.Get(cx + dx, cy + dy, cz + dz);
          ghost var o := Voxel(dx, dy, dz);
          assert NeighbourIndex(g, pos, o) == i;
          if i < 0 || !blocks[i].active {
            ClearStep(g, blocks, pos, hr, o, Voxel(dx, dy, dz + 1));
            continue;
          }
          var bp := blocks[i].position;
          var h := BLOCK_HALF;
          if pos.x + hr > bp.x - h && pos.x - hr < bp.x + h &&
             pos.y + hr > bp.y - h && pos.y - hr < bp.y + h &&
             pos.z + hr > bp.z - h && pos.z - hr < bp.z + h {
            assert Overlaps(pos, hr, bp);
            assert InNeighbourhood(o) && Contact(g, blocks, pos, hr, o);
            return i, o;
          }
          ClearStep(g, blocks, pos, hr, o, Voxel(dx, dy, dz + 1));
        }
        ClearStep(g, blocks, pos, hr, Voxel(dx, dy, 2), Voxel(dx, dy + 1, -1));
      }
      ClearStep(g, blocks, pos, hr, Voxel(dx, 2, -1), Voxel(dx + 1, -1, -1));
    }
    assert forall o :: InNeighbourhood(o) ==> ScannedBefore(o, Voxel(2, -1, -1));
    return -1, Voxel(0, 0, 0);
  }

  /** The half-size of the box a fragment of the given size collides with. */
  function HalfReach(fragSize: real): real {
    fragSize * 0.3
  }

  /** The motion `handleBlockCollision` leaves behind, with `hit` its result and `at` the
      neighbour it resolved against: without a grid or an overlapping active neighbour the
      motion is unchanged; otherwise it is resolved against the first contact in scan order. */
  ghost predicate BlockResponse(g: BlockGrid?, blocks: seq<Block>, m: Motion, fragSize: real,
                                m': Motion, hit: bool, at: Voxel)
    requires g != null ==> IndexesInto(g, |blocks|)
    reads if g != null then {g.data} else {}
  {
    var hr := HalfReach(fragSize);
    if g == null then !hit && m' == m
    else
      (hit <==> exists o :: InNeighbourhood(o) && Contact(g, blocks, m.pos, hr, o)) &&
      (!hit ==> m' == m) &&
      (hit ==>
         FirstContact(g, blocks, m.pos, hr, at) &&
         ResolvedAgainst(m.pos, m.vel, m.spin, hr, blocks[NeighbourIndex(g, m.pos, at)].position,
                         m'.pos, m'.vel, m'.spin))
  }

  /** `handleBlockCollision`: false and no change without a grid or without an overlapping
      active neighbour; otherwise only the first such neighbour in scan order is resolved,
      with the collision half-size 0.3 times the fragment size. */
  method HandleBlockCollision(g: BlockGrid?, blocks: seq<Block>, pos: Vec3, vel: Vec3,
                              spin: Vec3, fragSize: real)
    returns (pos': Vec3, vel': Vec3, spin': Vec3, hit: bool, ghost at: Voxel)
    requires g != null ==> IndexesInto(g, |blocks|)
    ensures BlockResponse(g, blocks, Motion(pos, vel, spin), fragSize, Motion(pos', vel', spin'), hit, at)
    ensures hit ==> SpinBounded(spin')
  {
    pos', vel', spin', hit, at := pos, vel, spin, false, Voxel(0, 0, 0);
    if g == null {
      return;
    }
    var hr := HalfReach(fragSize);
    var idx;
    idx, at := FindFirstContact(g, blocks, pos, hr);
    if idx >= 0 {
      var bp := blocks[idx].position;
      assert bp == blocks[NeighbourIndex(g, pos, at)].position;
      pos', vel', spin' := ResolveContact(pos, vel, spin, hr, bp);
      ResolutionSeparates(pos, vel, spin, hr, bp, pos', vel', spin');
      hit := true;
      assert InNeighbourhood(at) && Contact(g, blocks, pos, hr, at);
    }
  }

  /** The mean of the scale components, the fragment size the collisions use. */
  function MeanScale(fr: Fragment): real {
    (fr.scale.x + fr.scale.y + fr.scale.z) / 3.0
  }

  /** The velocity after gravity, before drag. */
  function Fallen(vel: Vec3, dt: real): Vec3 {
    vel.(y := Max(vel.y - GRAVITY * dt, -TERMINAL_VELOCITY))
  }

  /** With velocity `moving` after gravity and drag, one integration step brings the
      fragment down to the ground test. */
  predicate LandsOnGround(fr: Fragment, dt: real, moving: Vec3) {
    Advanced(fr.position, moving, dt).y <= GroundLevel(MeanScale(fr))
  }

  /** One explicit Euler step: p moved by rate v over dt. */
  function Advanced(p: Vec3, v: Vec3, dt: real): Vec3 {
    Vec3(p.x + v.x * dt, p.y + v.y * dt, p.z + v.z * dt)
  }

  /** At rest: no velocity and no spin. */
  predicate Resting(fr: Fragment) {
    fr.velocity == ZERO && fr.rotSpeed == ZERO
  }

  /** The motion after `applyGroundFriction`. */
  function Rubbed(m: Motion, dt: real): Motion {
    Motion(m.pos, Slowed(m.vel, FrictionFactor(dt)), m.spin.Scale(ANGULAR_DAMPING))
  }

  /** The motion after the sleep rule: both speed and spin zeroed once both are below their
      thresholds (compared squared). */
  function Settled(m: Motion): Motion {
    if LengthSq(m.vel) < MIN_VELOCITY * MIN_VELOCITY && LengthSq(m.spin) < MIN_ANGULAR * MIN_ANGULAR
    then Motion(m.pos, ZERO, ZERO)
    else m
  }

  /** The motion of an active fragment after one step, given its velocity `moving` after
      gravity and drag, in the order `updateFragmentPhysics` applies the stages: integrate the
      position, ground contact (`landed` says whether it happened), block contact (leaving
      `collided`, with `hit` and `at` as in BlockResponse), then friction and the sleep rule
      only if landed. The rotation advances by the spin after friction, before the sleep rule. */
  ghost predicate MotionStep(g: BlockGrid?, blocks: seq<Block>, fr: Fragment, dt: real,
                             moving: Vec3, landed: bool, collided: Motion, hit: bool, at: Voxel,
                             fr': Fragment)
    requires g != null ==> IndexesInto(g, |blocks|)
    reads if g != null then {g.data} else {}
  {
    var size := MeanScale(fr);
    var m := Motion(Advanced(fr.position, moving, dt), moving, fr.rotSpeed);
    var rubbed := if landed then Rubbed(collided, dt) else collided;
    var final := if landed then Settled(rubbed) else rubbed;
    (landed <==> LandsOnGround(fr, dt, moving)) &&
    BlockResponse(g, blocks, GroundResponse(m, size), size, collided, hit, at) &&
    fr'.rotation == Advanced(fr.rotation, rubbed.spin, dt) &&
    Motion(fr'.position, fr'.velocity, fr'.rotSpeed) == final
  }

  /** The motion part of `updateFragmentPhysics` for an active fragment whose velocity after
      gravity and drag is `moving`: integrate, collide with the ground and the blocks, then
      friction, rotation and the sleep rule. */
  method MoveFragment(g: BlockGrid?, blocks: seq<Block>, fr: Fragment, dt: real, moving: Vec3)
    returns (m: Motion, rotation: Vec3, ghost landed: bool, ghost collided: Motion,
             ghost hit: bool, ghost at: Voxel)
    requires g != null ==> IndexesInto(g, |blocks|)
    ensures MotionStep(g, blocks, fr, dt, moving, landed, collided, hit, at,
                       fr.(position := m.pos, velocity := m.vel, rotation := rotation, rotSpeed := m.spin))
    ensures landed == LandsOnGround(fr, dt, moving)
    ensures landed ==>
      (m.vel == ZERO && m.spin == ZERO) ||
      LengthSq(m.vel) >= MIN_VELOCITY * MIN_VELOCITY || LengthSq(m.spin) >= MIN_ANGULAR * MIN_ANGULAR
    ensures SpinBounded(fr.rotSpeed) ==> SpinBounded(m.spin)
  {
    var pos := Advanced(fr.position, moving, dt);
    var fragSize := MeanScale(fr);
    var vel, spin := moving, fr.rotSpeed;
    var onGround;
    pos, vel, spin, onGround := HandleGroundCollision(pos, vel, spin, fragSize);
    landed := onGround;
    ghost var grounded := Motion(pos, vel, spin);
    pos, vel, spin, hit, at := HandleBlockCollision(g, blocks, pos, vel, spin, fragSize);
    collided := Motion(pos, vel, spin);
    assert BlockResponse(g, blocks, grounded, fragSize, collided, hit, at);
    m, rotation := RubAndSettle(Motion(pos, vel, spin), onGround, fr.rotation, dt);
  }

  /** `updateFragmentPhysics`: an inactive fragment is left alone. An active one moves through
      the stages of MotionStep; only its motion, lifetime and activity change. A non-eternal
      fragment ages by dt and retires once its age reaches its maximum; an eternal one never
      ages; any fragment below y = -50 retires. A fragment that landed either ends the step
      at rest or still moves or spins at least at the sleep thresholds (speed 0.03, spin
      0.05, compared squared). Bounded spin stays bounded. */
  method UpdateFragmentPhysics(g: BlockGrid?, blocks: seq<Block>, fr: Fragment, dt: real,
                               drag: (Vec3, real) -> Vec3)
    returns (fr': Fragment, ghost landed: bool, ghost collided: Motion, ghost hit: bool,
             ghost at: Voxel)
    requires g != null ==> IndexesInto(g, |blocks|)
    ensures !fr.active ==> fr' == fr
    ensures fr' == fr.(position := fr'.position, velocity := fr'.velocity,
                       rotation := fr'.rotation, rotSpeed := fr'.rotSpeed,
                       lifetime := fr'.lifetime, active := fr'.active)
    ensures fr.active ==> fr'.lifetime == if fr.eternal then fr.lifetime else fr.lifetime + dt
    ensures fr.active ==>
      (fr'.active <==> (fr.eternal || fr.lifetime + dt < fr.maxLifetime) && fr'.position.y >= KILL_Y)
    ensures fr.active ==>
      MotionStep(g, blocks, fr, dt, drag(Fallen(fr.velocity, dt), dt), landed, collided, hit, at, fr')
    ensures fr.active && LandsOnGround(fr, dt, drag(Fallen(fr.velocity, dt), dt)) ==>
      Resting(fr') ||
      LengthSq(fr'.velocity) >= MIN_VELOCITY * MIN_VELOCITY ||
      LengthSq(fr'.rotSpeed) >= MIN_ANGULAR * MIN_ANGULAR
    ensures SpinBounded(fr.rotSpeed) ==> SpinBounded(fr'.rotSpeed)
  {
    landed, collided, hit, at := false, Motion(ZERO, ZERO, ZERO), false, Voxel(0, 0, 0);
    if !fr.active {
      return fr, landed, collided, hit, at;
    }
    var vel := ApplyGravity(fr.velocity, dt);
    vel := drag(vel, dt);
    var m, rotation;
    m, rotation, landed, collided, hit, at := MoveFragment(g, blocks, fr, dt, vel);
    var pos, spin := m.pos, m.spin;
    vel := m.vel;
    var lifetime := fr.lifetime;
    var active := fr.active;
    if !fr.eternal {
      lifetime := lifetime + dt;
      if lifetime >= fr.maxLifetime {
        active := false;
      }
    }
    if pos.y < KILL_Y {
      active := false;
    }
    fr' := fr.(position := pos, velocity := vel, rotation := rotation, rotSpeed := spin,
               lifetime := lifetime, active := active);
  }

  /** Lying on open ground: at the height a fragment of its size rests at. */
  predicate OnGround(fr: Fragment) {
    fr.position.y == GroundLevel(MeanScale(fr))
  }

  /** Over a frame of dt in [0, 0.05] a fragment at rest on open ground falls at g*dt,
      straight down, and reaches the ground test at the same x and z. */
  lemma FallFromRest(fr: Fragment, dt: real)
    requires 0.0 <= dt <= 0.05
    requires Resting(fr) && OnGround(fr)
    ensures Fallen(fr.velocity, dt) == Vec3(0.0, -GRAVITY * dt, 0.0)
    ensures LandsOnGround(fr, dt, Fallen(fr.velocity, dt))
    ensures Advanced(fr.position, Fallen(fr.velocity, dt), dt).(y := GroundLevel(MeanScale(fr))) ==
      fr.position
  {
    assert 0.0 <= dt * dt;
  }

  /** Falling at 0.49 with no spin, a fragment that reaches the ground bounces up at 0.0981
      without spin. */
  lemma BounceFromRest(m: Motion, size: real)
    requires m.pos.y <= GroundLevel(size) && m.vel == Vec3(0.0, -0.4905, 0.0) && m.spin == ZERO
    ensures GroundResponse(m, size) ==
      Motion(m.pos.(y := GroundLevel(size)), Vec3(0.0, 0.0981, 0.0), ZERO)
  {
    NoSpinFromVerticalBounce();
  }

  /** Bouncing straight up puts no spin on a fragment that had none. */
  lemma NoSpinFromVerticalBounce()
    ensures ClampedSpin(RollSpin(ZERO.Scale(0.5), Vec3(0.0, 0.0981, 0.0))) == ZERO
  {}

  /** Falling straight down slower than 0.3 with no spin, a fragment that reaches the ground
      stops there. */
  lemma StopFromRest(m: Motion, size: real)
    requires m.pos.y <= GroundLevel(size) && m.vel.x == 0.0 && m.vel.z == 0.0
    requires -0.3 <= m.vel.y && m.spin == ZERO
    ensures GroundResponse(m, size) == Motion(m.pos.(y := GroundLevel(size)), ZERO, ZERO)
  {}

  /** Rising at 0.0981 without spin, friction and the sleep rule leave a fragment as it is. */
  lemma RisingStaysAwake(m: Motion, dt: real)
    requires m.vel == Vec3(0.0, 0.0981, 0.0) && m.spin == ZERO
    ensures Rubbed(m, dt) == m && Settled(m) == m
  {
    assert LengthSq(m.vel) == 0.00962361;
  }

  /** Friction and the sleep rule leave a fragment at rest as it is. */
  lemma StillStaysAsleep(m: Motion, dt: real)
    requires m.vel == ZERO && m.spin == ZERO
    ensures Rubbed(m, dt) == m && Settled(m) == m
  {
    assert Slowed(ZERO, FrictionFactor(dt)) == ZERO;
  }

  /** Without a grid there is no block contact, so the step is the ground response followed,
      after a landing, by friction and the sleep rule. */
  lemma OpenGroundStep(blocks: seq<Block>, fr: Fragment, dt: real, moving: Vec3, landed: bool,
                       collided: Motion, hit: bool, at: Voxel, fr': Fragment)
    requires MotionStep(null, blocks, fr, dt, moving, landed, collided, hit, at, fr')
    ensures landed == LandsOnGround(fr, dt, moving) && !hit
    ensures collided ==
      GroundResponse(Motion(Advanced(fr.position, moving, dt), moving, fr.rotSpeed), MeanScale(fr))
    ensures landed ==> Motion(fr'.position, fr'.velocity, fr'.rotSpeed) == Settled(Rubbed(collided, dt))
    ensures landed ==> fr'.rotation == Advanced(fr.rotation, Rubbed(collided, dt).spin, dt)
  {}

  /** The stages of a 0.05 s step for a fragment at rest on open ground: it lands, bounces up
      at 0.0981 and keeps that speed through friction and the sleep rule. */
  lemma WakeStages(fr: Fragment)
    requires Resting(fr) && OnGround(fr)
    ensures var moving := Fallen(fr.velocity, 0.05);
      var m := Motion(Advanced(fr.position, moving, 0.05), moving, fr.rotSpeed);
      var after := Settled(Rubbed(GroundResponse(m, MeanScale(fr)), 0.05));
      LandsOnGround(fr, 0.05, moving) && after.vel == Vec3(0.0, 0.0981, 0.0) && after.spin == ZERO
  {
    var moving := Fallen(fr.velocity, 0.05);
    FallFromRest(fr, 0.05);
    var m := Motion(Advanced(fr.position, moving, 0.05), moving, fr.rotSpeed);
    BounceFromRest(m, MeanScale(fr));
    RisingStaysAwake(GroundResponse(m, MeanScale(fr)), 0.05);
  }

  /** The stages of a step of at most 0.03 s for a fragment at rest on open ground: it lands,
      stops where it was, and stays asleep through friction and the sleep rule. */
  lemma StillStages(fr: Fragment, dt: real)
    requires 0.0 <= dt <= 0.03
    requires Resting(fr) && OnGround(fr)
    ensures var moving := Fallen(fr.velocity, dt);
      var m := Motion(Advanced(fr.position, moving, dt), moving, fr.rotSpeed);
      var grounded := GroundResponse(m, MeanScale(fr));
      LandsOnGround(fr, dt, moving) && grounded == Motion(fr.position, ZERO, ZERO) &&
      Settled(Rubbed(grounded, dt)) == grounded && Rubbed(grounded, dt).spin == ZERO &&
      Advanced(fr.rotation, ZERO, dt) == fr.rotation
  {
    var moving := Fallen(fr.velocity, dt);
    FallFromRest(fr, dt);
    var m := Motion(Advanced(fr.position, moving, dt), moving, fr.rotSpeed);
    StopFromRest(m, MeanScale(fr));
    StillStaysAsleep(GroundResponse(m, MeanScale(fr)), dt);
  }

  /** A fragment at rest on open ground does not stay at rest over a 0.05 s frame, the
      longest frame the main loop lets through: gravity alone makes it fall at 0.49, faster
      than the 0.3 bounce threshold, and the bounce leaves it rising at 0.0981, above the
      sleep threshold. Air drag is taken as the identity and there is no grid. */
  lemma {:induction false} RestWakesOnLongFrame(blocks: seq<Block>, fr: Fragment, landed: bool,
                                                collided: Motion, hit: bool, at: Voxel,
                                                fr': Fragment)
    requires fr.active && Resting(fr) && OnGround(fr)
    requires MotionStep(null, blocks, fr, 0.05, Fallen(fr.velocity, 0.05), landed, collided,
                        hit, at, fr')
    ensures fr'.velocity == Vec3(0.0, 0.0981, 0.0) && fr'.rotSpeed == ZERO
    ensures !Resting(fr')
  {
    OpenGroundStep(blocks, fr, 0.05, Fallen(fr.velocity, 0.05), landed, collided, hit, at, fr');
    WakeStages(fr);
  }

  /** Over frames of at most 0.03 s a fragment at rest on open ground stays exactly where it
      is, at rest and unrotated: the fall gravity gives it stays under the bounce threshold,
      so the ground contact stops it and the sleep rule keeps it asleep. Air drag is taken as
      the identity and there is no grid. */
  lemma {:induction false} RestStaysOnShortFrame(blocks: seq<Block>, fr: Fragment, dt: real,
                                                 landed: bool, collided: Motion, hit: bool,
                                                 at: Voxel, fr': Fragment)
    requires 0.0 <= dt <= 0.03
    requires fr.active && Resting(fr) && OnGround(fr)
    requires MotionStep(null, blocks, fr, dt, Fallen(fr.velocity, dt), landed, collided, hit,
                        at, fr')
    ensures Resting(fr') && fr'.position == fr.position && fr'.rotation == fr.rotation
  {
    OpenGroundStep(blocks, fr, dt, Fallen(fr.velocity, dt), landed, collided, hit, at, fr');
    StillStages(fr, dt);
  }

  /** The sleep rule for a grounded fragment: once both its speed and its spin fall below
      their thresholds (compared squared), both are zeroed. */
  method SleepIfSlow(vel: Vec3, spin: Vec3) returns (vel': Vec3, spin': Vec3)
    ensures (vel' == ZERO && spin' == ZERO) ||
      LengthSq(vel') >= MIN_VELOCITY * MIN_VELOCITY || LengthSq(spin') >= MIN_ANGULAR * MIN_ANGULAR
    ensures LengthSq(vel) < MIN_VELOCITY * MIN_VELOCITY && LengthSq(spin) < MIN_ANGULAR * MIN_ANGULAR ==>
      vel' == ZERO && spin' == ZERO
    ensures (LengthSq(vel) >= MIN_VELOCITY * MIN_VELOCITY || LengthSq(spin) >= MIN_ANGULAR * MIN_ANGULAR) ==>
      vel' == vel && spin' == spin
  {
    vel', spin' := vel, spin;
    var speedSq := LengthSq(vel);
    var spinSq := LengthSq(spin);
    if speedSq < MIN_VELOCITY * MIN_VELOCITY && spinSq < MIN_ANGULAR * MIN_ANGULAR {
      vel' := ZERO;
      spin' := ZERO;
    }
  }

  /** The fragments of fs that are still active, in their original order. */
  function Survivors(fs: seq<Fragment>): (r: seq<Fragment>)
    ensures |r| <= |fs|
    ensures forall f :: f in r <==> f in fs && f.active
  {
    if fs == [] then []
    else (if fs[0].active then [fs[0]] else []) + Survivors(fs[1..])
  }

  /** Filtering distributes over concatenation, so survivors keep their relative order. */
  lemma {:induction false} SurvivorsAppend(a: seq<Fragment>, b: seq<Fragment>)
    ensures Survivors(a + b) == Survivors(a) + Survivors(b)
  {
    if a == [] {
      assert a + b == b;
    } else {
      assert (a + b)[1..] == a[1..] + b;
      SurvivorsAppend(a[1..], b);
    }
  }

  /** A list of active fragments is its own survivor list. */
  lemma {:induction false} SurvivorsOfActive(fs: seq<Fragment>)
    requires forall i :: 0 <= i < |fs| ==> fs[i].active
    ensures Survivors(fs) == fs
  {
    if fs != [] {
      SurvivorsOfActive(fs[1..]);
    }
  }

  /** If every fragment active in b was active in a at the same position, b has at most as
      many survivors as a. */
  lemma {:induction false} SurvivorsNoRevival(a: seq<Fragment>, b: seq<Fragment>)
    requires |a| == |b|
    requires forall i :: 0 <= i < |b| ==> b[i].active ==> a[i].active
    ensures |Survivors(b)| <= |Survivors(a)|
  {
    if a != [] {
      SurvivorsNoRevival(a[1..], b[1..]);
    }
  }

  /** The `erase(remove_if(..., !active))` compaction of the fragment list. */
  method RemoveInactive(fs: seq<Fragment>) returns (r: seq<Fragment>)
    ensures r == Survivors(fs)
    ensures forall i :: 0 <= i < |r| ==> r[i].active
  {
    r := [];
    for i := 0 to |fs|
      invariant r == Survivors(fs[..i])
    {
      assert fs[..i + 1] == fs[..i] + [fs[i]];
      SurvivorsAppend(fs[..i], [fs[i]]);
      assert Survivors([fs[i]]) == if fs[i].active then [fs[i]] else [] by {
        assert [fs[i]][1..] == [];
      }
      if fs[i].active {
        r := r + [fs[i]];
      }
    }
    assert fs[..|fs|] == fs;
    forall i | 0 <= i < |r|
      ensures r[i].active
    {
      assert r[i] in r;
    }
  }

  /** The tail of `updateFragmentPhysics`: friction if landed, the rotation advanced by the
      resulting spin, then the sleep rule if landed. */
  method RubAndSettle(m: Motion, landed: bool, rotation: Vec3, dt: real)
    returns (m': Motion, rotation': Vec3)
    ensures var rubbed := if landed then Rubbed(m, dt) else m;
      rotation' == Advanced(rotation, rubbed.spin, dt) &&
      m' == if landed then Settled(rubbed) else rubbed
    ensures landed ==>
      (m'.vel == ZERO && m'.spin == ZERO) ||
      LengthSq(m'.vel) >= MIN_VELOCITY * MIN_VELOCITY || LengthSq(m'.spin) >= MIN_ANGULAR * MIN_ANGULAR
    ensures SpinBounded(m.spin) ==> SpinBounded(m'.spin)
  {
    if landed {
      var vel, spin := ApplyGroundFriction(m.vel, m.spin, dt);
      assert Motion(m.pos, vel, spin) == Rubbed(m, dt);
      rotation' := Advanced(rotation, spin, dt);
      vel, spin := SleepIfSlow(vel, spin);
      m' := Motion(m.pos, vel, spin);
    } else {
      rotation' := Advanced(rotation, m.spin, dt);
      m' := m;
    }
  }

  /** fr' is what one step makes of fr, with `moving` its velocity after gravity and drag: an
      inactive fragment is unchanged; an active one moves as MotionStep says for some stage
      values, ages unless eternal, and stays active only while younger than its maximum and
      not below y = -50; no other field changes. */
  ghost predicate FragmentStep(g: BlockGrid?, blocks: seq<Block>, fr: Fragment, dt: real,
                               moving: Vec3, fr': Fragment)
    requires g != null ==> IndexesInto(g, |blocks|)
    reads if g != null then {g.data} else {}
  {
    (!fr.active ==> fr' == fr) &&
    fr' == fr.(position := fr'.position, velocity := fr'.velocity,
               rotation := fr'.rotation, rotSpeed := fr'.rotSpeed,
               lifetime := fr'.lifetime, active := fr'.active) &&
    (fr.active ==>
      fr'.lifetime == (if fr.eternal then fr.lifetime else fr.lifetime + dt) &&
      (fr'.active <==> (fr.eternal || fr.lifetime + dt < fr.maxLifetime) && fr'.position.y >= KILL_Y) &&
      exists landed, collided, hit, at ::
        MotionStep(g, blocks, fr, dt, moving, landed, collided, hit, at, fr'))
  }

  /** `updateAllFragments`: step every fragment in place (`stepped`, fragment i from
      fragment i), then drop the inactive ones, keeping the order of the rest. Every fragment
      left is active, none is revived, and bounded spin stays bounded. */
  method UpdateAllFragments(g: BlockGrid?, blocks: seq<Block>, fs: seq<Fragment>, dt: real,
                            drag: (Vec3, real) -> Vec3)
    returns (r: seq<Fragment>, ghost stepped: seq<Fragment>)
    requires g != null ==> IndexesInto(g, |blocks|)
    ensures |stepped| == |fs|
    ensures forall i :: 0 <= i < |fs| ==>
      FragmentStep(g, blocks, fs[i], dt, drag(Fallen(fs[i].velocity, dt), dt), stepped[i])
    ensures r == Survivors(stepped)
    ensures forall i :: 0 <= i < |r| ==> r[i].active
    ensures |r| <= |Survivors(fs)|
    ensures (forall i :: 0 <= i < |fs| ==> SpinBounded(fs[i].rotSpeed)) ==>
      forall i :: 0 <= i < |r| ==> SpinBounded(r[i].rotSpeed)
  {
    var frs := fs;
    for i := 0 to |fs|
      invariant |frs| == |fs|
      invariant forall j :: i <= j < |fs| ==> frs[j] == fs[j]
      invariant forall j :: 0 <= j < i ==>
        FragmentStep(g, blocks, fs[j], dt, drag(Fallen(fs[j].velocity, dt), dt), frs[j])
      invariant forall j :: 0 <= j < i ==> frs[j].active ==> fs[j].active
      invariant forall j :: 0 <= j < i ==>
        SpinBounded(fs[j].rotSpeed) ==> SpinBounded(frs[j].rotSpeed)
    {
      var next;
      ghost var landed, collided, hit, at;
      next, landed, collided, hit, at := UpdateFragmentPhysics(g, blocks, frs[i], dt, drag);
      assert FragmentStep(g, blocks, fs[i], dt, drag(Fallen(fs[i].velocity, dt), dt), next);
      frs := frs[i := next];
    }
    stepped := frs;
    r := RemoveInactive(frs);
    SurvivorsNoRevival(fs, frs);
    forall i | 0 <= i < |r|
      ensures (forall j :: 0 <= j < |fs| ==> SpinBounded(fs[j].rotSpeed)) ==>
        SpinBounded(r[i].rotSpeed)
    {
      assert r[i] in frs;
    }
  }
}
