/** Coordinate geometry of the point collector: the rotation between the
    display frame and the original image frame, the admission circle, and the
    two-decimal rounding applied to stored coordinates.

    Both frames have their origin at the centre of the image (the image is
    drawn with a centred extent), so the two frames differ by a rotation only. */
module Geometry {

  /** Radius of the admission circle drawn around the image centre. */
  const Radius: real := 40.0

  /** 3.141592653589793, numpy's pi as printed, taken here as an exact
      decimal; `np.radians` and matplotlib's `rotate_deg` use pi. */
  const Pi: real := 3.141592653589793

  /** A position in either frame. */
  datatype Vec = Vec(x: real, y: real)

  /** The cosine and sine the program takes from numpy.  They are not
      definable here, so they are carried as values and the laws the
      geometry needs are stated below as predicates over them. */
  datatype Trig = Trig(cos: real -> real, sin: real -> real)

  /** sin(a)^2 + cos(a)^2 == 1 for every angle a. */
  ghost predicate Pythagorean(t: Trig)
  {
    forall a: real :: t.sin(a) * t.sin(a) + t.cos(a) * t.cos(a) == 1.0
  }

  /** cos(-a) == cos(a); written with two angles that sum to zero. */
  ghost predicate CosEven(t: Trig)
  {
    forall a: real, b: real :: a + b == 0.0 ==> t.cos(a) == t.cos(b)
  }

  /** sin(-a) == -sin(a); written with two angles that sum to zero. */
  ghost predicate SinOdd(t: Trig)
  {
    forall a: real, b: real :: a + b == 0.0 ==> t.sin(a) == -t.sin(b)
  }

  ghost predicate Lawful(t: Trig)
  {
    Pythagorean(t) && CosEven(t) && SinOdd(t)
  }

  /** Degrees to radians, as `np.radians` and `rotate_deg` convert. */
  function Radians(deg: real): real
  {
    deg * Pi / 180.0
  }

  /** Counter-clockwise rotation by `theta` radians about the origin: the
      matrix [[cos, -sin], [sin, cos]] applied to `v`. */
  function Rotate(t: Trig, theta: real, v: Vec): Vec
  {
    var c, s := t.cos(theta), t.sin(theta);
    Vec(v.x * c - v.y * s, v.x * s + v.y * c)
  }

  /** The forward transform the renderer applies to the image when the
      rotation is `angle` degrees (`Affine2D().rotate_deg(angle)`). */
  function Forward(t: Trig, angle: real, v: Vec): (r: Vec)
    ensures Pythagorean(t) ==> SqNorm(r) == SqNorm(v)
  {
    Rotate(t, Radians(angle), v)
  }

  /** The inverse transform of a click: the display position is rotated by
      minus the current rotation to give the original-image position, the
      one position that the renderer shows at `v`. */
  function ToOriginal(t: Trig, rotation: real, v: Vec): (r: Vec)
    ensures Lawful(t) ==> Forward(t, rotation, r) == v
  {
    Rotate(t, Radians(-rotation), v)
  }

  function SqNorm(v: Vec): real
  {
    v.x * v.x + v.y * v.y
  }

  /** The admission test; the boundary itself is inside.  A position that
      passes has both coordinates within the radius. */
  predicate InsideCircle(v: Vec)
    ensures InsideCircle(v) ==> -Radius <= v.x <= Radius && -Radius <= v.y <= Radius
  {
    SqNorm(v) <= Radius * Radius
  }

  /** A rotation keeps the squared distance from the origin. */
  lemma RotationPreservesNorm(t: Trig, theta: real, v: Vec)
    requires Pythagorean(t)
    ensures SqNorm(Rotate(t, theta, v)) == SqNorm(v)
  {
  }

  /** Rotating by `theta` and then by `-theta` gives back the position. */
  lemma RotateThenUnrotate(t: Trig, theta: real, v: Vec)
    requires Lawful(t)
    ensures Rotate(t, -theta, Rotate(t, theta, v)) == v
  {
  }

  /** The click transform undoes the renderer's transform for the same
      rotation: a pixel of the image shown at `Forward(angle, p)` is mapped
      back to `p`. */
  lemma ToOriginalUndoesForward(t: Trig, angle: real, p: Vec)
    requires Lawful(t)
    ensures ToOriginal(t, angle, Forward(t, angle, p)) == p
  {
  }

  /** Whether a click lands in the circle does not depend on the rotation:
      the original position is inside exactly when the display position is. */
  lemma AdmissionIgnoresRotation(t: Trig, rotation: real, d: Vec)
    requires Pythagorean(t)
    ensures InsideCircle(ToOriginal(t, rotation, d)) <==> InsideCircle(d)
  {
  }

  /** `round(x, 2)` on a numpy float64, which is numpy's rint(x*100)/100,
      taken on exact reals: the nearest multiple of 1/100, ties going to the
      even multiple. */
  function Round2(x: real): (r: real)
    ensures -0.005 <= r - x <= 0.005
    ensures (r * 100.0).Floor as real == r * 100.0
    ensures (x * 100.0).Floor as real + 0.5 == x * 100.0 ==> (r * 100.0).Floor % 2 == 0
  {
    var scaled := x * 100.0;
    var n := scaled.Floor;
    var frac := scaled - n as real;
    var k := if frac < 0.5 then n
             else if frac > 0.5 then n + 1
             else if n % 2 == 0 then n
             else n + 1;
    k as real / 100.0
  }

  /** Rounding a value that already has two decimals leaves it alone. */
  lemma Round2Idempotent(x: real)
    ensures Round2(Round2(x)) == Round2(x)
  {
  }

  /** Rounding keeps the order of its inputs. */
  lemma Round2Monotone(x: real, y: real)
    requires x <= y
    ensures Round2(x) <= Round2(y)
  {
    var nx, ny := (x * 100.0).Floor, (y * 100.0).Floor;
    assert nx <= ny;
    if nx < ny {
      assert Round2(x) <= (nx + 1) as real / 100.0;
      assert ny as real / 100.0 <= Round2(y);
    }
  }

  /** Ties go to the even neighbour, in both directions. */
  lemma Round2TiesToEven()
    ensures Round2(0.125) == 0.12 && Round2(0.135) == 0.14
    ensures Round2(-0.125) == -0.12
  {
  }
}
