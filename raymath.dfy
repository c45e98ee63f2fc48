/**
 * The arithmetic of `World::rayCast` (assignment07/World.cc): a voxel walk
 * (a 3D digital differential analyser) over exact reals standing in for
 * `float`. The walk keeps, per axis, the ray parameter left until the next
 * voxel boundary (the "gap"); the lemmas here bound those gaps and count the
 * steps on each axis, which is what makes the walk terminate.
 */
module RayMath {
  import opened Coords
  import opened Blocks

  /** `glm::vec3`. */
  datatype RVec = RVec(x: real, y: real, z: real)

  function RAdd(a: RVec, b: RVec): RVec { RVec(a.x + b.x, a.y + b.y, a.z + b.z) }

  /** `t * v`. */
  function RScale(v: RVec, t: real): RVec { RVec(t * v.x, t * v.y, t * v.z) }

  /** `glm::ivec3(glm::floor(v))`. */
  function FloorVec(v: RVec): Vec3 { Vec3(v.x.Floor, v.y.Floor, v.z.Floor) }

  /** `glm::sign` converted to `int`. */
  function Sign(r: real): int { if r > 0.0 then 1 else if r < 0.0 then -1 else 0 }

  function SignVec(v: RVec): Vec3 { Vec3(Sign(v.x), Sign(v.y), Sign(v.z)) }

  function Abs(r: real): real { if r < 0.0 then -r else r }

  predicate NonZero(v: RVec) { v.x != 0.0 && v.y != 0.0 && v.z != 0.0 }

  /** `(idir + 1) / 2`: which face of the current voxel the ray leaves through on an axis (both operands are non-negative, so C++ and Dafny division agree). */
  function NextFace(s: int): int
    requires -1 <= s
  {
    (s + 1) / 2
  }

  /** The `0.001f` added to every boundary distance so that a step lands inside the next voxel. */
  const Eps: real := 0.001

  /** The ray parameter from `p` to the next voxel boundary on one axis, for voxel coordinate `i` and direction `d`. */
  function Gap(i: int, p: real, d: real): real
    requires d != 0.0
  {
    ((i + NextFace(Sign(d))) as real - p) / d
  }

  /** `nextT = (vec3(ipos + nidir) - pos) / dir + 0.001f`. */
  function NextT(ipos: Vec3, pos: RVec, dir: RVec): RVec
    requires NonZero(dir)
  {
    RVec(Gap(ipos.x, pos.x, dir.x) + Eps, Gap(ipos.y, pos.y, dir.y) + Eps, Gap(ipos.z, pos.z, dir.z) + Eps)
  }

  function Comp(v: RVec, a: int): real
  {
    if a == 0 then v.x else if a == 1 then v.y else v.z
  }

  /** The axis the walk steps on: X if its distance is least, else Y if not above Z, else Z. */
  function ChooseAxis(t: RVec): (a: int)
    ensures 0 <= a < 3
  {
    if t.x <= t.y && t.x <= t.z then 0 else if t.y <= t.z then 1 else 2
  }

  /** The chosen axis has the least distance, and it is the first axis that does (ties go to X, then Y). */
  lemma ChooseAxisFirstMinimum(t: RVec)
    ensures forall b | 0 <= b < 3 :: Comp(t, ChooseAxis(t)) <= Comp(t, b)
    ensures forall b | 0 <= b < ChooseAxis(t) :: Comp(t, b) > Comp(t, ChooseAxis(t))
  {
  }

  /** The unit vector of axis `a`: the `hitNormal` assigned before the final sign correction. */
  function Unit(a: int): Vec3
  {
    if a == 0 then Vec3(1, 0, 0) else if a == 1 then Vec3(0, 1, 0) else Vec3(0, 0, 1)
  }

  /** `ipos` after `ipos.<a> += idir.<a>`. */
  function StepAxis(i: Vec3, a: int, s: Vec3): Vec3
  {
    Add(i, Mul(Unit(a), s))
  }

  /** One step of the walk from voxel `u` to voxel `v` in direction signs `s`: one axis moves by its sign, the others stay. */
  predicate UnitStep(u: Vec3, v: Vec3, s: Vec3)
  {
    (v == Vec3(u.x + s.x, u.y, u.z) || v == Vec3(u.x, u.y + s.y, u.z) || v == Vec3(u.x, u.y, u.z + s.z))
  }

  lemma StepAxisIsUnitStep(i: Vec3, a: int, s: Vec3)
    requires 0 <= a < 3
    ensures UnitStep(i, StepAxis(i, a, s), s)
    ensures Sub(i, StepAxis(i, a, s)) == Mul(Unit(a), Scale(s, -1))
  {
  }

  // ---- per-axis bookkeeping of the walk -------------------------------------

  /** Dividing by `d` and multiplying back. */
  lemma DivMul(x: real, d: real)
    requires d != 0.0
    ensures (x / d) * d == x
  {
  }

  /** A quotient of a value in `[0, 1]` by a positive divisor lies between 0 and the divisor's inverse. */
  lemma DivBounds(x: real, d: real)
    requires d > 0.0 && 0.0 <= x <= 1.0
    ensures 0.0 <= x / d <= 1.0 / d
  {
    assert x / d == x * (1.0 / d);
    assert 1.0 / d > 0.0;
  }

  /** At the start, the voxel is the floor of the position, so the gap is between 0 and `1/|d|`. */
  lemma GapStart(p: real, d: real)
    requires d != 0.0
    ensures 0.0 <= Gap(p.Floor, p, d) <= 1.0 / Abs(d)
  {
    var f := p.Floor as real;
    assert f <= p < f + 1.0;
    if d > 0.0 {
      assert Gap(p.Floor, p, d) == (f + 1.0 - p) / d;
      DivBounds(f + 1.0 - p, d);
    } else {
      assert Gap(p.Floor, p, d) == (f - p) / d == (p - f) / (-d);
      DivBounds(p - f, -d);
    }
  }

  /** Advancing the position by `t * d` shrinks the gap by `t`. */
  lemma GapAfterMove(i: int, p: real, d: real, t: real)
    requires d != 0.0
    ensures Gap(i, p + t * d, d) == Gap(i, p, d) - t
  {
    var b := (i + NextFace(Sign(d))) as real;
    assert (b - p) / d - t == (b - p - t * d) / d by {
      DivMul(b - p, d);
      DivMul(b - p - t * d, d);
      assert ((b - p) / d - t) * d == b - p - t * d;
    }
  }

  /** Moving the voxel one step along the sign of `d` lengthens the gap by `1/|d|`. */
  lemma GapAfterStep(i: int, p: real, d: real, t: real)
    requires d != 0.0
    ensures Gap(i + Sign(d), p + t * d, d) == Gap(i, p, d) - t + 1.0 / Abs(d)
  {
    GapAfterMove(i, p, d, t);
    GapAfterMove(i + Sign(d), p, d, t);
    var b := (i + NextFace(Sign(d))) as real;
    DivMul(b - p, d);
    DivMul(b + Sign(d) as real - p, d);
    DivMul(1.0, d);
    assert Gap(i + Sign(d), p, d) == Gap(i, p, d) + Sign(d) as real / d;
    if d > 0.0 {
      assert Sign(d) as real / d == 1.0 / Abs(d);
    } else {
      assert Sign(d) as real / d == (-1.0) / d;
      DivMul(1.0, -d);
    }
  }

  /**
   * The invariant of one axis after `T` of the range has been travelled
   * with `k` steps on this axis, `g` being its gap now and `g0` at the start:
   * the gap stays within `[-Eps, 1/|d|]` and every step added `1/|d|` to it.
   */
  ghost predicate AxisInv(g: real, d: real, g0: real, k: int, t: real)
    requires d != 0.0
  {
    -Eps <= g <= 1.0 / Abs(d) && 0.0 <= g0 && 0 <= k && k as real == Abs(d) * (g - g0 + t)
  }

  lemma AxisInvStart(g0: real, d: real)
    requires d != 0.0 && 0.0 <= g0 <= 1.0 / Abs(d)
    ensures AxisInv(g0, d, g0, 0, 0.0)
  {
  }

  /** Stepping on the chosen axis: the gap resets to `1/|d| - Eps` and the step count grows by one. */
  lemma AxisInvStepped(g: real, d: real, g0: real, k: int, t: real, s: real)
    requires d != 0.0 && AxisInv(g, d, g0, k, t) && s == g + Eps
    ensures AxisInv(g - s + 1.0 / Abs(d), d, g0, k + 1, t + s)
  {
    DivMul(1.0, Abs(d));
    assert Abs(d) * (g - s + 1.0 / Abs(d) - g0 + t + s) == Abs(d) * (g - g0 + t) + Abs(d) * (1.0 / Abs(d));
  }

  /** On an axis not stepped on, the gap shrinks by the distance travelled. */
  lemma AxisInvMoved(g: real, d: real, g0: real, k: int, t: real, s: real)
    requires d != 0.0 && AxisInv(g, d, g0, k, t) && 0.0 <= s && -Eps <= g - s
    ensures AxisInv(g - s, d, g0, k, t + s)
  {
    assert Abs(d) * (g - s - g0 + t + s) == Abs(d) * (g - g0 + t);
  }

  /** The most steps an axis can take while less than `r` is travelled. */
  function StepBound(d: real, r: real): int
  {
    (1.0 + Abs(d) * r).Floor
  }

  /** While less than `r` has been travelled, an axis has been stepped on at most `1 + |d| * r` times. */
  lemma AxisInvBound(g: real, d: real, g0: real, k: int, t: real, r: real)
    requires d != 0.0 && AxisInv(g, d, g0, k, t) && t < r
    ensures k <= StepBound(d, r)
  {
    DivMul(1.0, Abs(d));
    assert Abs(d) * (g - g0 + t) <= Abs(d) * (1.0 / Abs(d) + r) by {
      assert g - g0 + t <= 1.0 / Abs(d) + r;
    }
    var a := Abs(d);
    assert a * (1.0 / a) == 1.0;
    assert a * (1.0 / a + r) == a * (1.0 / a) + a * r;
  }

  /** The coordinate `p` after moving the distance `s` along a direction of component `d`. */
  function Moved(p: real, s: real, d: real): real { p + s * d }

  /** Stepping on the chosen axis, by the gap plus `Eps`, keeps that axis' invariant with one more step. */
  lemma AdvanceStepped(i: int, p: real, d: real, g0: real, k: int, t: real, s: real, i': int, p': real, k': int, t': real)
    requires d != 0.0 && AxisInv(Gap(i, p, d), d, g0, k, t) && s == Gap(i, p, d) + Eps
    requires i' == i + Sign(d) && p' == Moved(p, s, d) && k' == k + 1 && t' == t + s
    ensures AxisInv(Gap(i', p', d), d, g0, k', t')
  {
    GapAfterStep(i, p, d, s);
    AxisInvStepped(Gap(i, p, d), d, g0, k, t, s);
  }

  /** Moving without stepping on an axis whose gap is at least the distance moved minus `Eps` keeps its invariant. */
  lemma AdvanceMoved(i: int, p: real, d: real, g0: real, k: int, t: real, s: real, p': real, t': real)
    requires d != 0.0 && AxisInv(Gap(i, p, d), d, g0, k, t) && 0.0 <= s && -Eps <= Gap(i, p, d) - s
    requires p' == Moved(p, s, d) && t' == t + s
    ensures AxisInv(Gap(i, p', d), d, g0, k, t')
  {
    GapAfterMove(i, p, d, s);
    AxisInvMoved(Gap(i, p, d), d, g0, k, t, s);
  }

  // ---- the walk as a sequence of probes -----------------------------------

  /** The state of the walk between two iterations: the voxel `ipos`, the position `pos`, and the range used up so far. */
  datatype Probe = Probe(voxel: Vec3, pos: RVec, travelled: real)

  /** The walk before its first step: the voxel holding `pos`, nothing travelled. */
  function StartProbe(pos: RVec): Probe
  {
    Probe(FloorVec(pos), pos, 0.0)
  }

  /** The axis that iteration steps on from probe `pr`. */
  function AxisAt(pr: Probe, dir: RVec): int
    requires NonZero(dir)
  {
    ChooseAxis(NextT(pr.voxel, pr.pos, dir))
  }

  /**
   * One iteration of the loop of `rayCast`: step the voxel on the axis of
   * the nearest boundary (ties to X, then Y) and move the position and the
   * range used by that boundary's distance.
   */
  function Advance(pr: Probe, dir: RVec): Probe
    requires NonZero(dir)
  {
    var t, i, s := NextT(pr.voxel, pr.pos, dir), pr.voxel, SignVec(dir);
    if t.x <= t.y && t.x <= t.z then
      Probe(Vec3(i.x + s.x, i.y, i.z), RAdd(pr.pos, RScale(dir, t.x)), pr.travelled + t.x)
    else if t.y <= t.z then
      Probe(Vec3(i.x, i.y + s.y, i.z), RAdd(pr.pos, RScale(dir, t.y)), pr.travelled + t.y)
    else
      Probe(Vec3(i.x, i.y, i.z + s.z), RAdd(pr.pos, RScale(dir, t.z)), pr.travelled + t.z)
  }

  /** An iteration moves to a face-adjacent voxel, one unit along the sign of `dir` on the chosen axis; the sign-corrected normal points back. */
  lemma AdvanceIsUnitStep(pr: Probe, dir: RVec)
    requires NonZero(dir)
    ensures Advance(pr, dir).voxel == StepAxis(pr.voxel, AxisAt(pr, dir), SignVec(dir))
    ensures UnitStep(pr.voxel, Advance(pr, dir).voxel, SignVec(dir))
    ensures Sub(pr.voxel, Advance(pr, dir).voxel) == Mul(Unit(AxisAt(pr, dir)), Scale(SignVec(dir), -1))
  {
    StepAxisIsUnitStep(pr.voxel, AxisAt(pr, dir), SignVec(dir));
  }

  /** The position stays on the ray: after travelling `t` it is `pos0 + t * dir`. */
  lemma AdvanceOnRay(pr: Probe, dir: RVec, pos0: RVec)
    requires NonZero(dir) && pr.pos == RAdd(pos0, RScale(dir, pr.travelled))
    ensures Advance(pr, dir).pos == RAdd(pos0, RScale(dir, Advance(pr, dir).travelled))
  {
    var s := Advance(pr, dir).travelled - pr.travelled;
    assert Advance(pr, dir).pos == RAdd(pr.pos, RScale(dir, s));
    MoveOnRay(pr.pos, pos0, dir, pr.travelled, s);
  }

  /** Moving by `s * dir` from `pos0 + t * dir` gives `pos0 + (t + s) * dir`. */
  lemma MoveOnRay(p: RVec, pos0: RVec, dir: RVec, t: real, s: real)
    requires p == RAdd(pos0, RScale(dir, t))
    ensures RAdd(p, RScale(dir, s)) == RAdd(pos0, RScale(dir, t + s))
  {
    Distributes(t, s, dir.x);
    Distributes(t, s, dir.y);
    Distributes(t, s, dir.z);
  }

  lemma Distributes(t: real, s: real, d: real)
    ensures (t + s) * d == t * d + s * d
  {
  }

  /** The gaps at the start of the walk. */
  function StartGaps(pos: RVec, dir: RVec): RVec
    requires NonZero(dir)
  {
    RVec(Gap(pos.x.Floor, pos.x, dir.x), Gap(pos.y.Floor, pos.y, dir.y), Gap(pos.z.Floor, pos.z, dir.z))
  }

  /** The per-axis invariant of the walk at probe `pr`, `k` counting the steps taken on each axis. */
  ghost predicate Walking(pr: Probe, dir: RVec, g0: RVec, k: Vec3)
    requires NonZero(dir)
  {
    AxisInv(Gap(pr.voxel.x, pr.pos.x, dir.x), dir.x, g0.x, k.x, pr.travelled)
    && AxisInv(Gap(pr.voxel.y, pr.pos.y, dir.y), dir.y, g0.y, k.y, pr.travelled)
    && AxisInv(Gap(pr.voxel.z, pr.pos.z, dir.z), dir.z, g0.z, k.z, pr.travelled)
  }

  lemma WalkingStart(pos: RVec, dir: RVec)
    requires NonZero(dir)
    ensures Walking(StartProbe(pos), dir, StartGaps(pos, dir), Vec3(0, 0, 0))
  {
    GapStart(pos.x, dir.x);
    GapStart(pos.y, dir.y);
    GapStart(pos.z, dir.z);
  }

  /** Every iteration keeps the invariant, counts one step on the chosen axis, and uses up a non-negative distance. */
  lemma AdvanceWalking(pr: Probe, dir: RVec, g0: RVec, k: Vec3)
    requires NonZero(dir) && Walking(pr, dir, g0, k)
    ensures Walking(Advance(pr, dir), dir, g0, Add(k, Unit(AxisAt(pr, dir))))
    ensures Advance(pr, dir).travelled >= pr.travelled
  {
    var t := NextT(pr.voxel, pr.pos, dir);
    if t.x <= t.y && t.x <= t.z {
      AdvanceOnX(pr, dir, g0, k);
    } else if t.y <= t.z {
      AdvanceOnY(pr, dir, g0, k);
    } else {
      AdvanceOnZ(pr, dir, g0, k);
    }
  }

  /** The probe after an iteration that steps on X by the distance `s`. */
  lemma AdvanceShapeX(pr: Probe, dir: RVec, s: real)
    requires NonZero(dir)
    requires var t := NextT(pr.voxel, pr.pos, dir); t.x <= t.y && t.x <= t.z && s == t.x
    ensures var i, p, q := pr.voxel, pr.pos, Advance(pr, dir);
      q.voxel == Vec3(i.x + Sign(dir.x), i.y, i.z) && q.travelled == pr.travelled + s &&
      q.pos.x == Moved(p.x, s, dir.x) && q.pos.y == Moved(p.y, s, dir.y) && q.pos.z == Moved(p.z, s, dir.z)
  {
    var i, p := pr.voxel, pr.pos;
    assert Advance(pr, dir) == Probe(Vec3(i.x + Sign(dir.x), i.y, i.z), RAdd(p, RScale(dir, s)), pr.travelled + s);
  }

  /** An iteration that steps on X. */
  lemma AdvanceOnX(pr: Probe, dir: RVec, g0: RVec, k: Vec3)
    requires NonZero(dir) && Walking(pr, dir, g0, k)
    requires var t := NextT(pr.voxel, pr.pos, dir); t.x <= t.y && t.x <= t.z
    ensures Walking(Advance(pr, dir), dir, g0, Vec3(k.x + 1, k.y, k.z))
    ensures Advance(pr, dir).travelled >= pr.travelled
  {
    var i, p, q := pr.voxel, pr.pos, Advance(pr, dir);
    var s := NextT(i, p, dir).x;
    AdvanceShapeX(pr, dir, s);
    AdvanceStepped(i.x, p.x, dir.x, g0.x, k.x, pr.travelled, s, i.x + Sign(dir.x), Moved(p.x, s, dir.x), k.x + 1, pr.travelled + s);
    AdvanceMoved(i.y, p.y, dir.y, g0.y, k.y, pr.travelled, s, Moved(p.y, s, dir.y), pr.travelled + s);
    AdvanceMoved(i.z, p.z, dir.z, g0.z, k.z, pr.travelled, s, Moved(p.z, s, dir.z), pr.travelled + s);
  }

  /** The probe after an iteration that steps on Y by the distance `s`. */
  lemma AdvanceShapeY(pr: Probe, dir: RVec, s: real)
    requires NonZero(dir)
    requires var t := NextT(pr.voxel, pr.pos, dir); !(t.x <= t.y && t.x <= t.z) && t.y <= t.z && s == t.y
    ensures var i, p, q := pr.voxel, pr.pos, Advance(pr, dir);
      q.voxel == Vec3(i.x, i.y + Sign(dir.y), i.z) && q.travelled == pr.travelled + s &&
      q.pos.x == Moved(p.x, s, dir.x) && q.pos.y == Moved(p.y, s, dir.y) && q.pos.z == Moved(p.z, s, dir.z)
  {
    var i, p := pr.voxel, pr.pos;
    assert Advance(pr, dir) == Probe(Vec3(i.x, i.y + Sign(dir.y), i.z), RAdd(p, RScale(dir, s)), pr.travelled + s);
  }

  /** An iteration that steps on Y. */
  lemma AdvanceOnY(pr: Probe, dir: RVec, g0: RVec, k: Vec3)
    requires NonZero(dir) && Walking(pr, dir, g0, k)
    requires var t := NextT(pr.voxel, pr.pos, dir); !(t.x <= t.y && t.x <= t.z) && t.y <= t.z
    ensures Walking(Advance(pr, dir), dir, g0, Vec3(k.x, k.y + 1, k.z))
    ensures Advance(pr, dir).travelled >= pr.travelled
  {
    var i, p, q := pr.voxel, pr.pos, Advance(pr, dir);
    var s := NextT(i, p, dir).y;
    AdvanceShapeY(pr, dir, s);
    AdvanceMoved(i.x, p.x, dir.x, g0.x, k.x, pr.travelled, s, Moved(p.x, s, dir.x), pr.travelled + s);
    AdvanceStepped(i.y, p.y, dir.y, g0.y, k.y, pr.travelled, s, i.y + Sign(dir.y), Moved(p.y, s, dir.y), k.y + 1, pr.travelled + s);
    AdvanceMoved(i.z, p.z, dir.z, g0.z, k.z, pr.travelled, s, Moved(p.z, s, dir.z), pr.travelled + s);
  }

  /** The probe after an iteration that steps on Z by the distance `s`. */
  lemma AdvanceShapeZ(pr: Probe, dir: RVec, s: real)
    requires NonZero(dir)
    requires var t := NextT(pr.voxel, pr.pos, dir); !(t.x <= t.y && t.x <= t.z) && !(t.y <= t.z) && s == t.z
    ensures var i, p, q := pr.voxel, pr.pos, Advance(pr, dir);
      q.voxel == Vec3(i.x, i.y, i.z + Sign(dir.z)) && q.travelled == pr.travelled + s &&
      q.pos.x == Moved(p.x, s, dir.x) && q.pos.y == Moved(p.y, s, dir.y) && q.pos.z == Moved(p.z, s, dir.z)
  {
    var i, p := pr.voxel, pr.pos;
    assert Advance(pr, dir) == Probe(Vec3(i.x, i.y, i.z + Sign(dir.z)), RAdd(p, RScale(dir, s)), pr.travelled + s);
  }

  /** An iteration that steps on Z. */
  lemma AdvanceOnZ(pr: Probe, dir: RVec, g0: RVec, k: Vec3)
    requires NonZero(dir) && Walking(pr, dir, g0, k)
    requires var t := NextT(pr.voxel, pr.pos, dir); !(t.x <= t.y && t.x <= t.z) && !(t.y <= t.z)
    ensures Walking(Advance(pr, dir), dir, g0, Vec3(k.x, k.y, k.z + 1))
    ensures Advance(pr, dir).travelled >= pr.travelled
  {
    var i, p, q := pr.voxel, pr.pos, Advance(pr, dir);
    var s := NextT(i, p, dir).z;
    AdvanceShapeZ(pr, dir, s);
    AdvanceMoved(i.x, p.x, dir.x, g0.x, k.x, pr.travelled, s, Moved(p.x, s, dir.x), pr.travelled + s);
    AdvanceMoved(i.y, p.y, dir.y, g0.y, k.y, pr.travelled, s, Moved(p.y, s, dir.y), pr.travelled + s);
    AdvanceStepped(i.z, p.z, dir.z, g0.z, k.z, pr.travelled, s, i.z + Sign(dir.z), Moved(p.z, s, dir.z), k.z + 1, pr.travelled + s);
  }

  /** While less than `r` has been travelled, the step counts are bounded, so the walk ends. */
  lemma WalkingBound(pr: Probe, dir: RVec, g0: RVec, k: Vec3, r: real)
    requires NonZero(dir) && Walking(pr, dir, g0, k) && pr.travelled < r
    ensures 0 <= k.x <= StepBound(dir.x, r) && 0 <= k.y <= StepBound(dir.y, r) && 0 <= k.z <= StepBound(dir.z, r)
  {
    AxisInvBound(Gap(pr.voxel.x, pr.pos.x, dir.x), dir.x, g0.x, k.x, pr.travelled, r);
    AxisInvBound(Gap(pr.voxel.y, pr.pos.y, dir.y), dir.y, g0.y, k.y, pr.travelled, r);
    AxisInvBound(Gap(pr.voxel.z, pr.pos.z, dir.z), dir.z, g0.z, k.z, pr.travelled, r);
  }

  // ---- where the walk stops ------------------------------------------------

  /** The probe after `n` iterations from `pr`. */
  function Walk(pr: Probe, dir: RVec, n: nat): Probe
    requires NonZero(dir)
    decreases n
  {
    if n == 0 then pr else Walk(Advance(pr, dir), dir, n - 1)
  }

  /** Iteration `n + 1` continues from the probe of iteration `n`. */
  lemma {:induction false} WalkNext(pr: Probe, dir: RVec, n: nat)
    requires NonZero(dir)
    ensures Walk(pr, dir, n + 1) == Advance(Walk(pr, dir, n), dir)
    decreases n
  {
    if n > 0 {
      WalkNext(Advance(pr, dir), dir, n - 1);
    }
  }

  /**
   * The loop of `rayCast` does not run again at probe `pr`: its voxel is
   * not air, or the remaining range `maxRange - travelled` is used up.
   */
  predicate Stops(snap: Snapshot, pr: Probe, maxRange: real)
  {
    !IsAir(BlockIn(snap, pr.voxel)) || maxRange - pr.travelled <= 0.0
  }

  /** A bound on the number of iterations while less than `r` has been travelled. */
  function Budget(dir: RVec, r: real): int
  {
    StepBound(dir.x, r) + StepBound(dir.y, r) + StepBound(dir.z, r)
  }

  /** The number of iterations the loop still runs from probe `pr`, `k` counting the steps taken so far on each axis. */
  ghost function StepsFrom(snap: Snapshot, pr: Probe, dir: RVec, maxRange: real, g0: RVec, k: Vec3): nat
    requires NonZero(dir) && Walking(pr, dir, g0, k)
    decreases Budget(dir, maxRange) - (k.x + k.y + k.z)
  {
    if Stops(snap, pr, maxRange) then 0
    else
      WalkingBound(pr, dir, g0, k, maxRange);
      AdvanceWalking(pr, dir, g0, k);
      1 + StepsFrom(snap, Advance(pr, dir), dir, maxRange, g0, Add(k, Unit(AxisAt(pr, dir))))
  }

  /** `StepsFrom` is the first iteration at which the loop stops. */
  lemma {:induction false} StepsFromFirstStop(snap: Snapshot, pr: Probe, dir: RVec, maxRange: real, g0: RVec, k: Vec3)
    requires NonZero(dir) && Walking(pr, dir, g0, k)
    ensures Stops(snap, Walk(pr, dir, StepsFrom(snap, pr, dir, maxRange, g0, k)), maxRange)
    ensures forall i | 0 <= i < StepsFrom(snap, pr, dir, maxRange, g0, k) :: !Stops(snap, Walk(pr, dir, i), maxRange)
    decreases Budget(dir, maxRange) - (k.x + k.y + k.z)
  {
    if !Stops(snap, pr, maxRange) {
      WalkingBound(pr, dir, g0, k, maxRange);
      AdvanceWalking(pr, dir, g0, k);
      var next, k' := Advance(pr, dir), Add(k, Unit(AxisAt(pr, dir)));
      StepsFromFirstStop(snap, next, dir, maxRange, g0, k');
      var n := StepsFrom(snap, pr, dir, maxRange, g0, k);
      assert n == 1 + StepsFrom(snap, next, dir, maxRange, g0, k');
      forall i | 0 <= i < n ensures !Stops(snap, Walk(pr, dir, i), maxRange) {
        if i > 0 {
          assert Walk(pr, dir, i) == Walk(next, dir, i - 1);
        }
      }
    }
  }

  /** The number of iterations `rayCast(pos, dir, maxRange)` runs. */
  ghost function CastSteps(snap: Snapshot, pos: RVec, dir: RVec, maxRange: real): nat
    requires NonZero(dir)
  {
    WalkingStart(pos, dir);
    StepsFrom(snap, StartProbe(pos), dir, maxRange, StartGaps(pos, dir), Vec3(0, 0, 0))
  }

  /** The loop runs exactly until the first probe at which it stops: a non-air voxel or the range used up. */
  lemma CastStepsFirstStop(snap: Snapshot, pos: RVec, dir: RVec, maxRange: real)
    requires NonZero(dir)
    ensures Stops(snap, Walk(StartProbe(pos), dir, CastSteps(snap, pos, dir, maxRange)), maxRange)
    ensures forall i | 0 <= i < CastSteps(snap, pos, dir, maxRange) :: !Stops(snap, Walk(StartProbe(pos), dir, i), maxRange)
  {
    WalkingStart(pos, dir);
    StepsFromFirstStop(snap, StartProbe(pos), dir, maxRange, StartGaps(pos, dir), Vec3(0, 0, 0));
  }

  /** A loop that has run `n` iterations without stopping and stops now has run `CastSteps` iterations. */
  lemma CastStepsUnique(snap: Snapshot, pos: RVec, dir: RVec, maxRange: real, n: nat)
    requires NonZero(dir)
    requires Stops(snap, Walk(StartProbe(pos), dir, n), maxRange)
    requires forall i | 0 <= i < n :: !Stops(snap, Walk(StartProbe(pos), dir, i), maxRange)
    ensures n == CastSteps(snap, pos, dir, maxRange)
  {
    CastStepsFirstStop(snap, pos, dir, maxRange);
  }

  /**
   * One more iteration of the loop from the probe of iteration `n`, which
   * does not stop: the new probe is that of iteration `n + 1`, the axis
   * invariants hold with one more step counted, and the step budget shrinks.
   */
  lemma WalkOneMore(snap: Snapshot, pos: RVec, dir: RVec, maxRange: real, n: nat, k: Vec3)
    requires NonZero(dir)
    requires Walking(Walk(StartProbe(pos), dir, n), dir, StartGaps(pos, dir), k) && k.x + k.y + k.z == n
    requires forall i | 0 <= i < n :: !Stops(snap, Walk(StartProbe(pos), dir, i), maxRange)
    requires !Stops(snap, Walk(StartProbe(pos), dir, n), maxRange)
    ensures var pr := Walk(StartProbe(pos), dir, n); var k' := Add(k, Unit(AxisAt(pr, dir)));
            && Walk(StartProbe(pos), dir, n + 1) == Advance(pr, dir)
            && Walking(Advance(pr, dir), dir, StartGaps(pos, dir), k') && k'.x + k'.y + k'.z == n + 1
            && n <= Budget(dir, maxRange)
    ensures forall i | 0 <= i < n + 1 :: !Stops(snap, Walk(StartProbe(pos), dir, i), maxRange)
  {
    var pr := Walk(StartProbe(pos), dir, n);
    WalkingBound(pr, dir, StartGaps(pos, dir), k, maxRange);
    AdvanceWalking(pr, dir, StartGaps(pos, dir), k);
    WalkNext(StartProbe(pos), dir, n);
  }

  /** `RayHit`: the outcome of a ray cast. */
  datatype RayHit = RayHit(hasHit: bool, hitPos: RVec, hitNormal: Vec3, block: int, blockPos: Vec3)

  /**
   * `hitNormal` after `n` iterations, corrected by `-idir`: zero before
   * the first step, otherwise the unit vector of the last stepped axis
   * pointing against the walk.
   */
  function NormalAfter(start: Probe, dir: RVec, n: nat): Vec3
    requires NonZero(dir)
  {
    if n == 0 then Vec3(0, 0, 0) else Mul(Unit(AxisAt(Walk(start, dir, n - 1), dir)), Scale(SignVec(dir), -1))
  }

  /** The `RayHit` that `rayCast` fills in when its loop stops after `n` iterations. */
  function HitAfter(snap: Snapshot, pos: RVec, dir: RVec, n: nat): RayHit
    requires NonZero(dir)
  {
    var pr := Walk(StartProbe(pos), dir, n);
    var b := BlockIn(snap, pr.voxel);
    RayHit(!IsAir(b), pr.pos, NormalAfter(StartProbe(pos), dir, n), b, pr.voxel)
  }

  /** `rayCast(pos, dir, maxRange)` on the blocks `snap`. */
  ghost function Cast(snap: Snapshot, pos: RVec, dir: RVec, maxRange: real): RayHit
    requires NonZero(dir)
  {
    HitAfter(snap, pos, dir, CastSteps(snap, pos, dir, maxRange))
  }

  /** The voxel of the previous iteration is the current one moved by the corrected normal. */
  lemma {:induction false} NormalPointsBack(start: Probe, dir: RVec, n: nat)
    requires NonZero(dir) && n > 0
    ensures Add(Walk(start, dir, n).voxel, NormalAfter(start, dir, n)) == Walk(start, dir, n - 1).voxel
    ensures NormalAfter(start, dir, n) != Vec3(0, 0, 0)
  {
    var prev := Walk(start, dir, n - 1);
    WalkNext(start, dir, n - 1);
    AdvanceIsUnitStep(prev, dir);
  }

  /**
   * What a ray cast reports: a hit exactly when the final block is not
   * air, that block is the world's block at `blockPos`; without a hit the
   * range is used up; every voxel visited before the last is air and was
   * reached within the range; the normal is zero exactly when the walk
   * never left the start voxel, and otherwise leads back from `blockPos`
   * to the air voxel visited just before it.
   */
  lemma CastFacts(snap: Snapshot, pos: RVec, dir: RVec, maxRange: real)
    requires NonZero(dir)
    ensures var hit, n := Cast(snap, pos, dir, maxRange), CastSteps(snap, pos, dir, maxRange);
            var last := Walk(StartProbe(pos), dir, n);
            && (hit.hasHit <==> !IsAir(hit.block))
            && hit.block == BlockIn(snap, hit.blockPos)
            && hit.blockPos == last.voxel && hit.hitPos == last.pos
            && (!hit.hasHit ==> last.travelled >= maxRange)
            && (forall i | 0 <= i < n :: IsAir(BlockIn(snap, Walk(StartProbe(pos), dir, i).voxel))
                                          && Walk(StartProbe(pos), dir, i).travelled < maxRange)
            && (hit.hitNormal == Vec3(0, 0, 0) <==> n == 0)
            && (n == 0 ==> hit.blockPos == FloorVec(pos))
            && (n > 0 ==> IsAir(BlockIn(snap, Add(hit.blockPos, hit.hitNormal))))
  {
    var n := CastSteps(snap, pos, dir, maxRange);
    CastStepsFirstStop(snap, pos, dir, maxRange);
    if n > 0 {
      NormalPointsBack(StartProbe(pos), dir, n);
      assert !Stops(snap, Walk(StartProbe(pos), dir, n - 1), maxRange);
    }
  }

  /** A ray that starts inside a non-air block hits it at once, with a zero normal. */
  lemma CastStartsInBlock(snap: Snapshot, pos: RVec, dir: RVec, maxRange: real)
    requires NonZero(dir) && !IsAir(BlockIn(snap, FloorVec(pos)))
    ensures Cast(snap, pos, dir, maxRange) == RayHit(true, pos, Vec3(0, 0, 0), BlockIn(snap, FloorVec(pos)), FloorVec(pos))
  {
    CastStepsUnique(snap, pos, dir, maxRange, 0);
  }
}
