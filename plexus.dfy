/**
 * The particle plexus behind the page: every animation frame each particle
 * moves by its velocity, bounces off the walls of a box of half-extent 400,
 * and every pair closer than 200 is linked by a line segment.
 *
 * The source keeps the positions in one flat buffer (particle i at indices
 * 3i, 3i+1, 3i+2). Velocities use the same layout here.
 */
module Plexus {
  import opened Pairs

  /** Number of particles the page creates. */
  const POINT_COUNT: nat := 120
  /** Half-extent of the box; a coordinate beyond it reverses that velocity component. */
  const BOUNDARY: real := 400.0
  /** Two particles closer than this are linked. */
  const LINK_DISTANCE: real := 200.0

  datatype Vec3 = Vec3(x: real, y: real, z: real)

  function Abs(r: real): real {
    if r < 0.0 then -r else r
  }

  /** Velocity component `u` after a coordinate reached `x`: reversed when `x` is outside the box. */
  function Reflect(x: real, u: real): real {
    if Abs(x) > BOUNDARY then u * -1.0 else u
  }

  /** Particle `i` read out of a flat coordinate buffer. */
  function PointAt(p: seq<real>, i: nat): Vec3
    requires 3 * i + 2 < |p|
  {
    Vec3(p[3 * i], p[3 * i + 1], p[3 * i + 2])
  }

  /** Particle `i` after it has moved by its velocity. */
  function MovedPoint(p: seq<real>, v: seq<real>, i: nat): Vec3
    requires |p| == |v| && 3 * i + 2 < |p|
  {
    Vec3(p[3 * i] + v[3 * i], p[3 * i + 1] + v[3 * i + 1], p[3 * i + 2] + v[3 * i + 2])
  }

  function DistSq(a: Vec3, b: Vec3): real {
    (a.x - b.x) * (a.x - b.x) + (a.y - b.y) * (a.y - b.y) + (a.z - b.z) * (a.z - b.z)
  }

  /**
   * Two points are linked when their distance is below 200. The source
   * compares a square root with 200; over the reals that is the same as
   * comparing the squared distance with 200 * 200.
   */
  predicate Linked(a: Vec3, b: Vec3) {
    DistSq(a, b) < LINK_DISTANCE * LINK_DISTANCE
  }

  /**
   * Whether pair (i, j), i < j, is linked in the frame that starts from
   * positions `p` and velocities `v`. When the pair is examined particle i
   * has already moved in this frame and particle j has not.
   */
  predicate NearInFrame(p: seq<real>, v: seq<real>, i: nat, j: nat)
    requires |p| == |v| && i < j && 3 * j + 2 < |p|
  {
    Linked(MovedPoint(p, v, i), PointAt(p, j))
  }

  /** The link test of a frame on pairs of particle indices; a pair outside the buffer is never linked. */
  function LinkTest(p: seq<real>, v: seq<real>): (nat, nat) -> bool {
    (a: nat, b: nat) => a < b && 3 * b + 2 < |p| && |p| == |v| && NearInFrame(p, v, a, b)
  }

  /** The six coordinates pushed for a line segment from `a` to `b`. */
  function SegmentOf(a: Vec3, b: Vec3): seq<real> {
    [a.x, a.y, a.z, b.x, b.y, b.z]
  }

  /**
   * The segment of a linked pair: i's moved position, then j's unmoved one.
   * A pair outside the buffer has none; the pairs of a frame never are.
   */
  function Segment(p: seq<real>, v: seq<real>, pr: Pair): seq<real> {
    if |p| == |v| && 3 * pr.i + 2 < |p| && 3 * pr.j + 2 < |p| then SegmentOf(MovedPoint(p, v, pr.i), PointAt(p, pr.j)) else []
  }

  function SegmentFn(p: seq<real>, v: seq<real>): Pair -> seq<real> {
    pr => Segment(p, v, pr)
  }

  /** All linked pairs of one frame of n particles, in the order the loops visit them. */
  function NearPairs(p: seq<real>, v: seq<real>, n: nat): seq<Pair> {
    AllPairs(LinkTest(p, v), n)
  }

  /** The line buffer for a list of pairs: their segments, one after another. */
  function Lines(p: seq<real>, v: seq<real>, ps: seq<Pair>): seq<real> {
    Flatten(SegmentFn(p, v), ps)
  }

  /** The link test `keep` and the output `f` agree with the frame at pair (i, j). */
  predicate AgreesAt(p: seq<real>, v: seq<real>, keep: (nat, nat) -> bool, f: Pair -> seq<real>, i: nat, j: nat)
    requires |p| == |v| && i < j && 3 * j + 2 < |p|
  {
    && keep(i, j) == Linked(MovedPoint(p, v, i), PointAt(p, j))
    && f(Pair(i, j)) == SegmentOf(MovedPoint(p, v, i), PointAt(p, j))
  }

  /** The frame's own link test and segment output agree with it along row i. */
  lemma RowAgrees(p: seq<real>, v: seq<real>, i: nat)
    requires |p| == |v|
    ensures forall j :: i < j && 3 * j + 2 < |p| ==> AgreesAt(p, v, LinkTest(p, v), SegmentFn(p, v), i, j)
  {
  }

  /**
   * A frame links exactly the pairs (i, j), i < j < n, whose distance is
   * below 200, measured from i's new position to j's old one; a distance of
   * exactly 200 gives no link.
   */
  lemma NearPairsExact(p: seq<real>, v: seq<real>, n: nat, i: nat, j: nat)
    requires |p| == |v| && 3 * n <= |p|
    ensures Pair(i, j) in NearPairs(p, v, n) <==> i < j < n && NearInFrame(p, v, i, j)
  {
    AllPairsExact(LinkTest(p, v), n, i, j);
  }

  /** The linked pairs come in lexicographic order, so none appears twice. */
  lemma NearPairsOrdered(p: seq<real>, v: seq<real>, n: nat)
    ensures StrictlyOrdered(NearPairs(p, v, n))
    ensures forall a, b :: 0 <= a < b < |NearPairs(p, v, n)| ==> NearPairs(p, v, n)[a] != NearPairs(p, v, n)[b]
  {
    AllPairsOrdered(LinkTest(p, v), n);
  }

  /** Every pair has i < j and both particles inside a flat buffer of `len` coordinates. */
  predicate InBuffer(ps: seq<Pair>, len: nat) {
    forall pr :: pr in ps ==> pr.i < pr.j && 3 * pr.j + 2 < len
  }

  /** Every linked pair of a frame lies inside the buffer. */
  lemma NearPairsInBuffer(p: seq<real>, v: seq<real>, n: nat)
    requires |p| == |v| && 3 * n <= |p|
    ensures InBuffer(NearPairs(p, v, n), |p|)
  {
    forall pr | pr in NearPairs(p, v, n) ensures pr.i < pr.j && 3 * pr.j + 2 < |p| {
      PairsBeforeMember(LinkTest(p, v), n, n, pr);
    }
  }

  /** A list of pairs inside the buffer puts six coordinates per pair in the line buffer. */
  lemma {:induction false} LinesLength(p: seq<real>, v: seq<real>, ps: seq<Pair>)
    requires |p| == |v| && InBuffer(ps, |p|)
    ensures |Lines(p, v, ps)| == 6 * |ps|
    decreases |ps|
  {
    if |ps| != 0 {
      var init := ps[..|ps| - 1];
      var last := ps[|ps| - 1];
      assert InBuffer(init, |p|) by {
        forall pr | pr in init ensures pr.i < pr.j && 3 * pr.j + 2 < |p| {
          assert pr in ps;
        }
      }
      LinesLength(p, v, init);
      assert last in ps;
      assert |SegmentFn(p, v)(last)| == 6;
    }
  }

  /** Segment k of the line buffer, six coordinates, is the k-th pair's segment. */
  lemma {:induction false} LinesAt(p: seq<real>, v: seq<real>, ps: seq<Pair>, k: nat)
    requires |p| == |v| && InBuffer(ps, |p|) && k < |ps|
    ensures |Lines(p, v, ps)| == 6 * |ps|
    ensures Lines(p, v, ps)[6 * k..6 * k + 6] == Segment(p, v, ps[k])
    decreases |ps|
  {
    LinesLength(p, v, ps);
    var init := ps[..|ps| - 1];
    var prefix := Lines(p, v, init);
    var last := Segment(p, v, ps[|ps| - 1]);
    assert InBuffer(init, |p|) by {
      forall pr | pr in init ensures pr.i < pr.j && 3 * pr.j + 2 < |p| {
        assert pr in ps;
      }
    }
    assert Lines(p, v, ps) == prefix + last;
    LinesLength(p, v, init);
    if k < |ps| - 1 {
      LinesAt(p, v, init, k);
      assert init[k] == ps[k];
      Sequences.SliceOfAppendLeft(prefix, last, 6 * k, 6 * k + 6);
    } else {
      Sequences.SliceOfAppendRight(prefix, last);
    }
  }

  /**
   * Segment k of a frame's line buffer, six coordinates, is the k-th linked
   * pair's: the first particle's moved position, then the second's unmoved one.
   */
  lemma FrameSegmentAt(p: seq<real>, v: seq<real>, n: nat, k: nat)
    requires |p| == |v| && 3 * n <= |p| && k < |NearPairs(p, v, n)|
    ensures |Lines(p, v, NearPairs(p, v, n))| == 6 * |NearPairs(p, v, n)|
    ensures var pr := NearPairs(p, v, n)[k];
            pr.i < pr.j && 3 * pr.j + 2 < |p|
            && Lines(p, v, NearPairs(p, v, n))[6 * k..6 * k + 6] == SegmentOf(MovedPoint(p, v, pr.i), PointAt(p, pr.j))
  {
    NearPairsInBuffer(p, v, n);
    LinesAt(p, v, NearPairs(p, v, n), k);
    assert NearPairs(p, v, n)[k] in NearPairs(p, v, n);
  }

  /**
   * One axis of one particle stays near the box: its speed never exceeds
   * twice the half-extent, it is at most one step outside the box, and
   * when it is outside it is moving back in.
   */
  predicate AxisContained(x: real, u: real) {
    && Abs(u) <= 2.0 * BOUNDARY
    && Abs(x) <= BOUNDARY + Abs(u)
    && (x > BOUNDARY ==> u < 0.0)
    && (x < -BOUNDARY ==> u > 0.0)
  }

  predicate Contained(p: seq<real>, v: seq<real>)
    requires |p| == |v|
  {
    forall k :: 0 <= k < |p| ==> AxisContained(p[k], v[k])
  }

  /** One integration step on one axis keeps the axis contained and keeps its speed. */
  lemma StepKeepsAxisContained(x: real, u: real)
    requires AxisContained(x, u)
    ensures AxisContained(x + u, Reflect(x + u, u))
    ensures Abs(Reflect(x + u, u)) == Abs(u)
  {
  }

  /** Positions after one frame: every coordinate moved by its velocity component. */
  function NextPositions(p: seq<real>, v: seq<real>): (r: seq<real>)
    requires |p| == |v|
    ensures |r| == |p|
  {
    seq(|p|, k requires 0 <= k < |p| => p[k] + v[k])
  }

  /** Velocities after one frame: a component reverses where its moved coordinate is outside the box. */
  function NextVelocities(p: seq<real>, v: seq<real>): (r: seq<real>)
    requires |p| == |v|
    ensures |r| == |p|
  {
    seq(|p|, k requires 0 <= k < |p| => Reflect(p[k] + v[k], v[k]))
  }

  /** Part way through a frame from `p0`, `v0`: the first m coordinates have taken their step, the rest not. */
  predicate SteppedUpTo(p0: seq<real>, v0: seq<real>, p1: seq<real>, v1: seq<real>, m: nat)
    requires |p0| == |v0| == |p1| == |v1| && m <= |p0|
  {
    && (forall k :: 0 <= k < m ==> p1[k] == p0[k] + v0[k] && v1[k] == Reflect(p1[k], v0[k]))
    && (forall k :: m <= k < |p0| ==> p1[k] == p0[k] && v1[k] == v0[k])
  }

  lemma SteppedAll(p0: seq<real>, v0: seq<real>, p1: seq<real>, v1: seq<real>)
    requires |p0| == |v0| == |p1| == |v1| && SteppedUpTo(p0, v0, p1, v1, |p0|)
    ensures p1 == NextPositions(p0, v0) && v1 == NextVelocities(p0, v0)
  {
    assert p1 == NextPositions(p0, v0);
  }

  /** A whole frame keeps every coordinate contained and every speed as it was. */
  lemma FrameKeepsContained(p: seq<real>, v: seq<real>)
    requires |p| == |v|
    ensures forall k :: 0 <= k < |v| ==> Abs(NextVelocities(p, v)[k]) == Abs(v[k])
    ensures Contained(p, v) ==> Contained(NextPositions(p, v), NextVelocities(p, v))
  {
    var p1 := NextPositions(p, v);
    var v1 := NextVelocities(p, v);
    forall k | 0 <= k < |p|
      ensures Abs(v1[k]) == Abs(v[k])
      ensures AxisContained(p[k], v[k]) ==> AxisContained(p1[k], v1[k])
    {
      if AxisContained(p[k], v[k]) {
        StepKeepsAxisContained(p[k], v[k]);
      }
    }
  }

  /** The start state the page creates (positions inside the box, speeds at most 0.5) is contained. */
  lemma InitialStateContained(p: seq<real>, v: seq<real>)
    requires |p| == |v|
    requires forall k :: 0 <= k < |p| ==> Abs(p[k]) <= BOUNDARY && Abs(v[k]) <= 0.5
    ensures Contained(p, v)
  {
  }

  /** A particle starting at x = 399 with speed 5 toward the wall overshoots to 404, turns, and is back at 399. */
  lemma BounceScenario()
    ensures 399.0 + 5.0 == 404.0 && Reflect(404.0, 5.0) == -5.0
    ensures 404.0 + Reflect(404.0, 5.0) == 399.0 && Reflect(399.0, -5.0) == -5.0
  {
  }

  /**
   * Three resting particles on the x axis at 0, 50 and 250: particles 0
   * and 1 (distance 50) are linked; 1 and 2 are exactly 200 apart and are
   * not, nor are 0 and 2.
   */
  lemma ThreeParticleLinks(p: seq<real>, v: seq<real>)
    requires p == [0.0, 0.0, 0.0, 50.0, 0.0, 0.0, 250.0, 0.0, 0.0] && v == seq(9, _ => 0.0)
    ensures LinkTest(p, v)(0, 1) && !LinkTest(p, v)(0, 2) && !LinkTest(p, v)(1, 2)
    ensures Segment(p, v, Pair(0, 1)) == [0.0, 0.0, 0.0, 50.0, 0.0, 0.0]
  {
    assert MovedPoint(p, v, 0) == Vec3(0.0, 0.0, 0.0);
    assert MovedPoint(p, v, 1) == Vec3(50.0, 0.0, 0.0);
    assert PointAt(p, 1) == Vec3(50.0, 0.0, 0.0);
    assert PointAt(p, 2) == Vec3(250.0, 0.0, 0.0);
  }

  /** In that frame the only linked pair is (0, 1) and the line buffer holds its two positions. */
  lemma ThreeParticleScenario(p: seq<real>, v: seq<real>)
    requires p == [0.0, 0.0, 0.0, 50.0, 0.0, 0.0, 250.0, 0.0, 0.0] && v == seq(9, _ => 0.0)
    ensures NearPairs(p, v, 3) == [Pair(0, 1)]
    ensures Lines(p, v, NearPairs(p, v, 3)) == [0.0, 0.0, 0.0, 50.0, 0.0, 0.0]
  {
    ThreeParticleLinks(p, v);
    AllPairsOfThree(LinkTest(p, v));
    var ps := [Pair(0, 1)];
    assert ps[..0] == [];
    assert Lines(p, v, ps) == Lines(p, v, []) + Segment(p, v, Pair(0, 1));
  }

  /**
   * The particle buffers of the page. `Animate` runs the body of one
   * animation frame: integrate, reflect, and collect the line buffer.
   */
  class Plexus {
    const count: nat
    var positions: array<real>
    var velocities: array<real>

    ghost predicate Valid()
      reads this
    {
      positions.Length == 3 * count && velocities.Length == 3 * count && positions != velocities
    }

    /** The random start state is an argument. */
    constructor (n: nat, initialPositions: seq<real>, initialVelocities: seq<real>)
      requires |initialPositions| == 3 * n && |initialVelocities| == 3 * n
      ensures Valid() && count == n
      ensures fresh(positions) && fresh(velocities)
      ensures positions[..] == initialPositions && velocities[..] == initialVelocities
    {
      count := n;
      positions := new real[3 * n](k requires 0 <= k < 3 * n => initialPositions[k]);
      velocities := new real[3 * n](k requires 0 <= k < 3 * n => initialVelocities[k]);
    }

    /** Move particle i by its velocity, then reverse each velocity component whose coordinate left the box. */
    method Integrate(i: nat)
      requires Valid() && i < count
      modifies positions, velocities
      ensures forall k :: 3 * i <= k < 3 * i + 3 ==>
        positions[k] == old(positions[k]) + old(velocities[k]) && velocities[k] == Reflect(positions[k], old(velocities[k]))
      ensures forall k :: 0 <= k < 3 * count && !(3 * i <= k < 3 * i + 3) ==>
        positions[k] == old(positions[k]) && velocities[k] == old(velocities[k])
    {
      var i3 := i * 3;
      positions[i3] := positions[i3] + velocities[i3];
      positions[i3 + 1] := positions[i3 + 1] + velocities[i3 + 1];
      positions[i3 + 2] := positions[i3 + 2] + velocities[i3 + 2];

      if Abs(positions[i3]) > BOUNDARY { velocities[i3] := velocities[i3] * -1.0; }
      if Abs(positions[i3 + 1]) > BOUNDARY { velocities[i3 + 1] := velocities[i3 + 1] * -1.0; }
      if Abs(positions[i3 + 2]) > BOUNDARY { velocities[i3 + 2] := velocities[i3 + 2] * -1.0; }
    }

    /**
     * The body of the inner loop for pair (i, j): read the two particles out
     * of the buffer and output their segment when they are linked. Particle
     * i has moved already in this frame (`p0`, `v0` are the buffers the
     * frame started with), particle j has not. `keep` and `f` are any link
     * test and segment output that agree with the frame at (i, j).
     */
    method LinkPair(i: nat, j: nat, ghost p0: seq<real>, ghost v0: seq<real>,
                    ghost keep: (nat, nat) -> bool, ghost f: Pair -> seq<real>) returns (coords: seq<real>)
      requires Valid() && i < j < count && |p0| == 3 * count && |v0| == 3 * count
      requires forall k :: 3 * i <= k < 3 * i + 3 ==> positions[k] == p0[k] + v0[k]
      requires forall k :: 3 * i + 3 <= k < 3 * count ==> positions[k] == p0[k]
      requires AgreesAt(p0, v0, keep, f, i, j)
      ensures coords == ColumnOut(keep, f, i, j)
    {
      var i3 := i * 3;
      var j3 := j * 3;
      var here := Vec3(positions[i3], positions[i3 + 1], positions[i3 + 2]);
      var there := Vec3(positions[j3], positions[j3 + 1], positions[j3 + 2]);
      assert here == MovedPoint(p0, v0, i);
      assert there == PointAt(p0, j) by {
        assert 3 * i + 3 <= j3;
      }
      if Linked(here, there) {
        coords := SegmentOf(here, there);
      } else {
        coords := [];
      }
    }

    /** The inner loop for particle i: scan every j > i and collect the segment of each linked pair. */
    method LinkRow(i: nat, ghost p0: seq<real>, ghost v0: seq<real>,
                   ghost keep: (nat, nat) -> bool, ghost f: Pair -> seq<real>) returns (rowCoords: seq<real>)
      requires Valid() && i < count && |p0| == 3 * count && |v0| == 3 * count
      requires forall k :: 3 * i <= k < 3 * i + 3 ==> positions[k] == p0[k] + v0[k]
      requires forall k :: 3 * i + 3 <= k < 3 * count ==> positions[k] == p0[k]
      requires forall j :: i < j < count ==> AgreesAt(p0, v0, keep, f, i, j)
      ensures rowCoords == RowOut(keep, f, i, count)
    {
      var n := count;
      rowCoords := [];
      var j := i + 1;
      while j < n
        invariant i + 1 <= j <= n
        invariant rowCoords == RowOut(keep, f, i, j)
      {
        var coords := LinkPair(i, j, p0, v0, keep, f);
        RowOutStep(keep, f, i, j);
        rowCoords := rowCoords + coords;
        j := j + 1;
      }
    }

    /**
     * One pass of the outer loop for particle i: move it, then append the
     * segments of its row to the buffer of the rows before.
     */
    method Advance(i: nat, ghost p0: seq<real>, ghost v0: seq<real>, linesBefore: seq<real>) returns (lineCoords: seq<real>)
      requires Valid() && i < count && |p0| == 3 * count && |v0| == 3 * count
      requires SteppedUpTo(p0, v0, positions[..], velocities[..], 3 * i)
      requires linesBefore == FrameOut(LinkTest(p0, v0), SegmentFn(p0, v0), count, i)
      modifies positions, velocities
      ensures SteppedUpTo(p0, v0, positions[..], velocities[..], 3 * i + 3)
      ensures lineCoords == FrameOut(LinkTest(p0, v0), SegmentFn(p0, v0), count, i + 1)
    {
      Integrate(i);
      RowAgrees(p0, v0, i);
      var rowCoords := LinkRow(i, p0, v0, LinkTest(p0, v0), SegmentFn(p0, v0));
      lineCoords := linesBefore + rowCoords;
    }

    /**
     * One frame: every coordinate moves by its velocity component, that
     * component is reversed exactly when the moved coordinate is outside the
     * box (the position is not clamped), and the returned line buffer, new
     * in every frame, holds the segments of this frame's linked pairs.
     */
    method Animate() returns (lineCoords: seq<real>)
      requires Valid()
      modifies positions, velocities
      ensures Valid()
      ensures positions[..] == NextPositions(old(positions[..]), old(velocities[..]))
      ensures velocities[..] == NextVelocities(old(positions[..]), old(velocities[..]))
      ensures lineCoords == Lines(old(positions[..]), old(velocities[..]), NearPairs(old(positions[..]), old(velocities[..]), count))
    {
      ghost var p0 := positions[..];
      ghost var v0 := velocities[..];
      var n := count;
      lineCoords := [];
      var i := 0;
      while i < n
        invariant 0 <= i <= n
        invariant SteppedUpTo(p0, v0, positions[..], velocities[..], 3 * i)
        invariant lineCoords == FrameOut(LinkTest(p0, v0), SegmentFn(p0, v0), n, i)
      {
        lineCoords := Advance(i, p0, v0, lineCoords);
        i := i + 1;
      }
      FrameOutIsFlatten(LinkTest(p0, v0), SegmentFn(p0, v0), n, n);
      SteppedAll(p0, v0, positions[..], velocities[..]);
    }
  }
}
