/** The geometric predicates the builder consults, as an oracle over point
    indices. The coordinates and their floating-point arithmetic are not part
    of the model; only the comparisons the source makes on the computed
    values, and the coordinate-free short-circuit of the Delaunay check, are. */
module Geometry {

  /** The tolerance `eps` of src/scanline_triangulation.hpp. */
  const Eps: real := 0.000000001

  /** cross(a, b, c) is the value CrossProduct(p[a] - p[c], p[b] - p[c]) as the
      source computes it; quadLegal(left, right, outer, inner) is the verdict
      of the convexity and in-circle tests of CheckDelaunayCondition. */
  datatype Oracle = Oracle(
    cross: (int, int, int) -> real,
    quadLegal: (int, int, int, int) -> bool)

  /** The rightward walk goes on while the edge (h, next) is visible from i:
      the cross product is above -eps, so near-collinear edges count as visible. */
  predicate RightVisible(geo: Oracle, h: int, next: int, i: int) {
    geo.cross(h, next, i) > -Eps
  }

  /** The leftward walk goes on while the cross product is below +eps. */
  predicate LeftVisible(geo: Oracle, h: int, next: int, i: int) {
    geo.cross(h, next, i) < Eps
  }

  /** Whether the quadrilateral (left, outer, right, inner) needs no flip.
      When outer == inner there is only a triangle, and the answer is "legal"
      whatever the coordinates. */
  function CheckDelaunayCondition(geo: Oracle, left: int, right: int, outer: int, inner: int): (legal: bool)
    ensures outer == inner ==> legal
    ensures !legal ==> outer != inner && !geo.quadLegal(left, right, outer, inner)
  {
    if outer == inner then true
    else geo.quadLegal(left, right, outer, inner)
  }

  /** With an antisymmetric cross product, the leftward walk's test of the
      edge (next, h) is the rightward walk's test of (h, next): both walks
      accept the same hull edges, each from its own end. */
  lemma VisibleFromEitherEnd(geo: Oracle, h: int, next: int, i: int)
    requires geo.cross(h, next, i) == -geo.cross(next, h, i)
    ensures RightVisible(geo, h, next, i) <==> LeftVisible(geo, next, h, i)
  {
  }
}
