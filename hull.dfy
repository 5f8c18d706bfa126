/** BuildConvexHull: the points on the boundary of a finished
    triangulation, read off the store without touching it. */
module ConvexHull {
  import opened Models
  import opened Legalize
  import opened Sweep

  /** v is an endpoint of a stored edge whose apex set does not hold two
      points, i.e. an edge with a triangle on at most one side. */
  predicate OnBoundary(t: Graph, v: int) {
    exists e :: e in t && t[e].Size() != 2 && (v == e.v1 || v == e.v2)
  }

  /** v is an endpoint of a boundary edge among `keys`. */
  predicate BoundaryAmong(t: Graph, keys: set<Edge>, v: int) {
    exists e :: e in keys && e in t && t[e].Size() != 2 && (v == e.v1 || v == e.v2)
  }

  /** The scan over the store: for every entry whose apex set does not hold
      two points, both endpoints go into the result. */
  method BuildConvexHull(t: Graph) returns (hull: set<int>)
    ensures forall v :: v in hull <==> OnBoundary(t, v)
  {
    hull := {};
    var todo := t.Keys;
    while todo != {}
      invariant todo <= t.Keys
      invariant forall v :: v in hull <==> BoundaryAmong(t, t.Keys - todo, v)
      decreases |todo|
    {
      var e :| e in todo;
      BoundaryAmongAdd(t, t.Keys - todo, e);
      if t[e].Size() != 2 {
        hull := hull + {e.v1, e.v2};
      }
      assert t.Keys - (todo - {e}) == (t.Keys - todo) + {e};
      todo := todo - {e};
    }
    assert t.Keys - todo == t.Keys;
  }

  /** Scanning one more entry adds its endpoints exactly when it is a
      boundary edge. */
  lemma BoundaryAmongAdd(t: Graph, done: set<Edge>, e: Edge)
    requires e in t
    ensures forall v :: BoundaryAmong(t, done + {e}, v) <==>
      BoundaryAmong(t, done, v) || (t[e].Size() != 2 && (v == e.v1 || v == e.v2))
  {
    forall v | BoundaryAmong(t, done + {e}, v)
      ensures BoundaryAmong(t, done, v) || (t[e].Size() != 2 && (v == e.v1 || v == e.v2))
    {
      var e' :| e' in done + {e} && e' in t && t[e'].Size() != 2 && (v == e'.v1 || v == e'.v2);
      if e' != e {
        assert e' in done;
      }
    }
  }

  /** On a store satisfying the invariant, boundary points are points. */
  lemma BoundaryInRange(t: Graph, last: int, v: int)
    requires GraphInv(t, last)
    requires OnBoundary(t, v)
    ensures 0 <= v <= last
  {
  }

  /** In the three-point triangulation every edge has a single apex, so all
      three points are on the hull and nothing else is. */
  lemma TriangleBoundary(v: int)
    ensures OnBoundary(Triangle(), v) <==> v in {0, 1, 2}
  {
    var t := Triangle();
    if v == 0 || v == 1 {
      assert Edge(0, 1) in t && t[Edge(0, 1)].Size() == 1;
    } else if v == 2 {
      assert Edge(0, 2) in t && t[Edge(0, 2)].Size() == 1;
    }
  }
}
