/**
 * The particle type the container holds. The container only ever reads and
 * writes a particle's position; every other field travels with it unchanged.
 */
module Particles {
  import opened Domain

  /** A particle: its position and the user fields the container never inspects. */
  datatype Particle = Particle(pos: Vec, attrs: seq<real>)

  /** What a slot holds before anything is written to it. */
  const Blank: Particle := Particle(Vec(0.0, 0.0, 0.0), [])

  /** The positions of some particles, in order. */
  function Positions(ps: seq<Particle>): (r: seq<Vec>)
    ensures |r| == |ps|
    ensures forall i :: 0 <= i < |ps| ==> r[i] == ps[i].pos
  {
    seq(|ps|, i requires 0 <= i < |ps| => ps[i].pos)
  }

  /**
   * s resized to n slots (resizeNoInitialize): the common prefix is kept and
   * slots past the old end, whose contents the container never reads before
   * writing them, are Blank.
   */
  function Resized(s: seq<Particle>, n: nat): (r: seq<Particle>)
    ensures |r| == n
    ensures forall i :: 0 <= i < n && i < |s| ==> r[i] == s[i]
  {
    if n <= |s| then s[..n] else s + seq(n - |s|, _ => Blank)
  }
}
