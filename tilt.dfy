/**
 * The device-orientation handler: the left-right tilt (gamma) and the
 * front-back tilt (beta, measured from a phone held at 45 degrees) are each
 * clamped to [-20, 20] degrees and scaled into the targets of two tweens,
 * one moving the hero arch and one moving the camera.
 */
module Tilt {

  /** The clamp range, in degrees, on either side of rest. */
  const TILT_LIMIT: real := 20.0
  /** The front-back angle of a phone held at rest. */
  const BETA_REST: real := 45.0

  /** `gsap.utils.clamp(lo, hi, v)`: `lo` below the range, `hi` above it, `v` inside. */
  function Clamp(lo: real, hi: real, v: real): (r: real)
    ensures lo <= hi ==> lo <= r <= hi
    ensures lo <= v <= hi ==> r == v
  {
    if v < lo then lo else if v > hi then hi else v
  }

  function Abs(x: real): real {
    if x < 0.0 then -x else x
  }

  /** The clamp gives the point of the range nearest to `v`. */
  lemma ClampIsNearest(lo: real, hi: real, v: real, w: real)
    requires lo <= w <= hi
    ensures Abs(Clamp(lo, hi, v) - v) <= Abs(w - v)
  {
  }

  /** A larger angle is never clamped to a smaller one. */
  lemma ClampMonotone(lo: real, hi: real, v: real, w: real)
    requires lo <= hi && v <= w
    ensures Clamp(lo, hi, v) <= Clamp(lo, hi, w)
  {
  }

  /** Clamping a clamped angle changes nothing. */
  lemma ClampIdempotent(lo: real, hi: real, v: real)
    requires lo <= hi
    ensures Clamp(lo, hi, Clamp(lo, hi, v)) == Clamp(lo, hi, v)
  {
  }

  /** The targets of the two tweens one orientation event starts. */
  datatype TiltTargets = TiltTargets(archX: real, archY: real, archRotationY: real, cameraX: real, cameraY: real)

  /** The clamped tilt on each axis: `xMove` and `yMove`. */
  function TiltMoves(gamma: real, beta: real): (r: (real, real))
    ensures -TILT_LIMIT <= r.0 <= TILT_LIMIT && -TILT_LIMIT <= r.1 <= TILT_LIMIT
  {
    (Clamp(-TILT_LIMIT, TILT_LIMIT, gamma), Clamp(-TILT_LIMIT, TILT_LIMIT, beta - BETA_REST))
  }

  /** `handleOrientation`: the arch moves by twice the clamped tilt, the camera by five times, against the front-back tilt. */
  function Targets(gamma: real, beta: real): (r: TiltTargets)
    ensures -40.0 <= r.archX <= 40.0 && -40.0 <= r.archY <= 40.0
    ensures -4.0 <= r.archRotationY <= 4.0
    ensures -100.0 <= r.cameraX <= 100.0 && -100.0 <= r.cameraY <= 100.0
  {
    var (xMove, yMove) := TiltMoves(gamma, beta);
    TiltTargets(xMove * 2.0, yMove * 2.0, xMove * 0.2, xMove * 5.0, -yMove * 5.0)
  }

  /** A phone held upright at rest leaves the arch and the camera centred. */
  lemma RestIsCentred()
    ensures Targets(0.0, BETA_REST) == TiltTargets(0.0, 0.0, 0.0, 0.0, 0.0)
  {
  }

  /**
   * Within the range the targets follow the tilt exactly; beyond it they
   * stay at its edge, so tilting further changes nothing.
   */
  lemma TargetsSaturate(gamma: real, beta: real)
    ensures -TILT_LIMIT <= gamma <= TILT_LIMIT ==> Targets(gamma, beta).archX == 2.0 * gamma
    ensures gamma >= TILT_LIMIT ==> Targets(gamma, beta) == Targets(TILT_LIMIT, beta)
    ensures gamma <= -TILT_LIMIT ==> Targets(gamma, beta) == Targets(-TILT_LIMIT, beta)
    ensures beta - BETA_REST >= TILT_LIMIT ==> Targets(gamma, beta) == Targets(gamma, BETA_REST + TILT_LIMIT)
    ensures beta - BETA_REST <= -TILT_LIMIT ==> Targets(gamma, beta) == Targets(gamma, BETA_REST - TILT_LIMIT)
  {
  }

  /** Tilting further to the right moves the arch and the camera no further left. */
  lemma TargetsMonotone(gamma: real, gamma': real, beta: real)
    requires gamma <= gamma'
    ensures Targets(gamma, beta).archX <= Targets(gamma', beta).archX
    ensures Targets(gamma, beta).cameraX <= Targets(gamma', beta).cameraX
  {
    ClampMonotone(-TILT_LIMIT, TILT_LIMIT, gamma, gamma');
  }
}
