/**
 * What the three force engines share: their coefficients, the gravity pull
 * towards the origin, and the explicit-Euler integrator
 * `velocity += force; velocity *= dampening; position += velocity`.
 */
module Physics {
  import opened Vectors

  datatype Coefficients = Coefficients(attraction: real, repulsion: real, gravity: real, dampening: real)

  /** `-pos * gravity`: a pull proportional to the distance from the origin. */
  function Gravity(pos: Vec3, gravity: real): Vec3 {
    Vec3(-pos.x * gravity, -pos.y * gravity, -pos.z * gravity)
  }

  /**
   * Gravity is the position scaled by `-gravity`: its component along the
   * position is `-gravity` times the squared distance from the origin.
   */
  lemma GravityPull(pos: Vec3, gravity: real)
    ensures Gravity(pos, gravity) == Scale(Neg(pos), gravity)
    ensures Dot(Gravity(pos, gravity), pos) == -gravity * Norm2(pos)
  {
  }

  /** The gravity term of every node. */
  function Gravities(ps: seq<Vec3>, gravity: real): (gs: seq<Vec3>)
    ensures |gs| == |ps|
    ensures forall i :: 0 <= i < |ps| ==> gs[i] == Gravity(ps[i], gravity)
  {
    seq(|ps|, i requires 0 <= i < |ps| => Gravity(ps[i], gravity))
  }

  /** Position and velocity of one node. */
  datatype State = State(pos: Vec3, vel: Vec3)

  /** One node's integration step, the operations in the engines' order. */
  function Integrate(s: State, force: Vec3, dampening: real): State {
    var v := Scale(Add(s.vel, force), dampening);
    State(Add(s.pos, v), v)
  }

  /**
   * The order matters: dampening applies to the velocity after the force is
   * added, and the position moves by the damped velocity. With no force and
   * no velocity nothing moves; with dampening 1 the step is plain Euler.
   */
  lemma IntegrateOrder(s: State, force: Vec3, dampening: real)
    ensures Integrate(s, force, dampening).vel
            == Add(Scale(s.vel, dampening), Scale(force, dampening))
    ensures Integrate(s, force, dampening).pos
            == Add(Add(s.pos, Scale(s.vel, dampening)), Scale(force, dampening))
    ensures Integrate(s, force, 1.0) == State(Add(s.pos, Add(s.vel, force)), Add(s.vel, force))
  {
  }

  /**
   * A lone node at rest moves along the line to the origin, to
   * `p * (1 - gravity * dampening)`.
   */
  lemma LoneNodeUnderGravity(p: Vec3, gravity: real, dampening: real)
    ensures Integrate(State(p, Zero), Gravity(p, gravity), dampening).pos
            == Scale(p, 1.0 - gravity * dampening)
    ensures Integrate(State(p, Zero), Gravity(p, gravity), dampening).vel
            == Scale(p, -gravity * dampening)
  {
  }
}
