/** Points of the plane, as the `Location` struct of the searcher holds them. */
module Geometry {

  /** A point with real-valued coordinates (the source stores two doubles). */
  datatype Location = Location(x: real, y: real)

  /** Absolute value, the `std::abs` of the distance formulas. */
  function Abs(v: real): (a: real)
    ensures a >= 0.0
    ensures a == v || a == -v
  {
    if v < 0.0 then -v else v
  }

  /** Larger of two reals, the `std::max` of the Chebyshev formula. */
  function Max(u: real, v: real): (m: real)
    ensures m >= u && m >= v
    ensures m == u || m == v
  {
    if u < v then v else u
  }

  /** `p` lies in the closed axis-aligned box of half-width `r` around `c`,
      the region the x-range and y-range scans keep. */
  predicate InBox(c: Location, p: Location, r: real)
  {
    c.x - r <= p.x <= c.x + r && c.y - r <= p.y <= c.y + r
  }

  /** Being in the box is the same as both coordinate offsets being at most `r`. */
  lemma InBoxIffOffsets(c: Location, p: Location, r: real)
    ensures InBox(c, p, r) <==> Abs(c.x - p.x) <= r && Abs(c.y - p.y) <= r
  {
  }
}
