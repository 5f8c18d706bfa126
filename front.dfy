/** The hull front as a doubly linked cycle. While point i is being added,
    the points on the current hull, read rightwards from the last inserted
    point i - 1, form a cycle: each one's right link is the next and each
    one's left link the previous. Points that have left the hull keep their
    old links, so the cycle is a list of some of the points, not all. */
module HullFront {
  import opened Models
  import opened Outcomes
  import opened Geometry
  import opened Legalize
  import opened Sweep
  import Legacy

  /** The source computes CrossProduct(p[a] - p[c], p[b] - p[c]); exchanging
      a and b exchanges the two products it subtracts, which negates the
      result exactly when each product is rounded to a double before the
      subtraction (no fused multiply-add, no extended precision); under
      such contraction this is an assumption about the build. */
  ghost predicate Antisymmetric(geo: Oracle) {
    forall a, b, c :: geo.cross(a, b, c) == -geo.cross(b, a, c)
  }

  /** The cycle with its first point repeated at the end. */
  function Closed(ring: seq<int>): (ext: seq<int>)
    requires |ring| > 0
    ensures |ext| == |ring| + 1 && ext[|ring|] == ring[0]
    ensures forall x :: 0 <= x < |ring| ==> ext[x] == ring[x]
  {
    ring + [ring[0]]
  }

  /** `ring` lists distinct points below i in rightward order, and the links
      of `front` go round it in both directions. */
  predicate IsRing(front: seq<ListNode>, i: int, ring: seq<int>) {
    2 <= |ring| && i <= |front| &&
    (forall a, b :: 0 <= a < b < |ring| ==> ring[a] != ring[b]) &&
    (forall x :: 0 <= x < |ring| ==> 0 <= ring[x] < i) &&
    forall x :: 0 <= x < |ring| ==>
      front[Closed(ring)[x]].right == Closed(ring)[x + 1] && front[Closed(ring)[x + 1]].left == Closed(ring)[x]
  }

  /** While point i is being added, the hull front is a cycle through i - 1. */
  ghost predicate HullRing(front: seq<ListNode>, i: int) {
    exists ring :: IsRing(front, i, ring) && ring[0] == i - 1
  }

  // ---------------------------------------------------------------------
  // Walking round the cycle

  /** In the closed cycle, a point occurs twice only as its first and last
      entry. */
  lemma ClosedDistinct(front: seq<ListNode>, i: int, ring: seq<int>, x: int, y: int)
    requires IsRing(front, i, ring)
    requires 0 <= x < y <= |ring|
    ensures Closed(ring)[x] == Closed(ring)[y] <==> x == 0 && y == |ring|
  {
  }

  /** j steps right from the x-th point of the cycle reach the (x + j)-th. */
  lemma {:induction false} RingRight(front: seq<ListNode>, i: int, ring: seq<int>, x: nat, j: nat)
    requires FrontOk(front, i) && IsRing(front, i, ring)
    requires x + j <= |ring|
    ensures Follow(front, i, Rightward, Closed(ring)[x], j) == Closed(ring)[x + j]
    decreases j
  {
    if j > 0 {
      assert Neighbour(front, Closed(ring)[x], Rightward) == Closed(ring)[x + 1];
      RingRight(front, i, ring, x + 1, j - 1);
    }
  }

  /** j steps left from the x-th point of the cycle reach the (x - j)-th. */
  lemma {:induction false} RingLeft(front: seq<ListNode>, i: int, ring: seq<int>, x: nat, j: nat)
    requires FrontOk(front, i) && IsRing(front, i, ring)
    requires j <= x <= |ring|
    ensures Follow(front, i, Leftward, Closed(ring)[x], j) == Closed(ring)[x - j]
    decreases j
  {
    if j > 0 {
      assert Neighbour(front, Closed(ring)[x], Leftward) == Closed(ring)[x - 1];
      RingLeft(front, i, ring, x - 1, j - 1);
    }
  }

  /** Both links of a point on the cycle lead to a point on the cycle. */
  lemma NeighbourInRing(front: seq<ListNode>, i: int, ring: seq<int>, side: Side, h: int)
    requires IsRing(front, i, ring) && h in ring
    ensures Neighbour(front, h, side) in ring
  {
    var x :| 0 <= x < |ring| && ring[x] == h;
    assert Closed(ring)[x] == h;
    if side == Leftward {
      if x == 0 {
        assert Closed(ring)[|ring|] == h;
        assert front[h].left == Closed(ring)[|ring| - 1];
      } else {
        assert front[h].left == Closed(ring)[x - 1];
      }
    } else {
      assert front[h].right == Closed(ring)[x + 1];
    }
  }

  /** A walk along the front from a point of the cycle stays on the cycle. */
  lemma {:induction false} FollowInRing(front: seq<ListNode>, i: int, ring: seq<int>, side: Side, h: int, j: nat)
    requires FrontOk(front, i) && IsRing(front, i, ring)
    requires h in ring && 0 <= h < i
    ensures Follow(front, i, side, h, j) in ring
    decreases j
  {
    if j > 0 {
      NeighbourInRing(front, i, ring, side, h);
      FollowInRing(front, i, ring, side, Neighbour(front, h, side), j - 1);
    }
  }

  /** The rightward walk from i - 1 stops before going once round the cycle:
      otherwise it would have passed its own stopping edge as visible. */
  lemma RightStopOnRing(front: seq<ListNode>, i: int, ring: seq<int>, geo: Oracle, k: nat)
    requires FrontOk(front, i) && IsRing(front, i, ring)
    requires VisibleFor(front, i, Rightward, ring[0], k, geo)
    requires var stop := Follow(front, i, Rightward, ring[0], k);
      !Visible(geo, Rightward, stop, Neighbour(front, stop, Rightward), i)
    ensures k < |ring|
  {
    if k >= |ring| {
      var stop := Follow(front, i, Rightward, ring[0], k);
      FollowInRing(front, i, ring, Rightward, ring[0], k);
      var x :| 0 <= x < |ring| && ring[x] == stop;
      RingRight(front, i, ring, 0, x);
      RingRight(front, i, ring, 0, x + 1);
      assert false;
    }
  }

  /** Likewise the leftward walk from i - 1. */
  lemma LeftStopOnRing(front: seq<ListNode>, i: int, ring: seq<int>, geo: Oracle, m: nat)
    requires FrontOk(front, i) && IsRing(front, i, ring)
    requires VisibleFor(front, i, Leftward, ring[0], m, geo)
    requires var stop := Follow(front, i, Leftward, ring[0], m);
      !Visible(geo, Leftward, stop, Neighbour(front, stop, Leftward), i)
    ensures m < |ring|
  {
    if m >= |ring| {
      var c := |ring|;
      var stop := Follow(front, i, Leftward, ring[0], m);
      FollowInRing(front, i, ring, Leftward, ring[0], m);
      var x :| 0 <= x < c && ring[x] == stop;
      var j := if x == 0 then 0 else c - x;
      RingLeft(front, i, ring, c, j);
      RingLeft(front, i, ring, c, j + 1);
      assert false;
    }
  }

  /** A finished walk from i - 1 stops after fewer steps than the cycle has
      points, every edge it passed being visible. */
  lemma StepsOnRing(side: Side, fix: (Graph, Edge) -> Result<Graph>, g: Graph, front: seq<ListNode>, i: int, geo: Oracle, fuel: nat, ring: seq<int>)
    returns (k: nat)
    requires FrontOk(front, i) && IsRing(front, i, ring)
    requires Walk(side, fix, g, front, ring[0], i, geo, fuel).Ok?
    ensures k < |ring| && Walk(side, fix, g, front, ring[0], i, geo, fuel).value.stop == Follow(front, i, side, ring[0], k)
    ensures VisibleFor(front, i, side, ring[0], k, geo)
  {
    WalkStopsAtFirstHidden(side, fix, g, front, ring[0], i, geo, fuel);
    k :| k <= fuel && Walk(side, fix, g, front, ring[0], i, geo, fuel).value.stop == Follow(front, i, side, ring[0], k) &&
      VisibleFor(front, i, side, ring[0], k, geo);
    if side == Rightward {
      RightStopOnRing(front, i, ring, geo, k);
    } else {
      LeftStopOnRing(front, i, ring, geo, k);
    }
  }

  /** The two walks never pass each other: k steps right and m steps left
      leave at least one hidden edge of the cycle between them, since an
      edge visible to one walk is visible to the other. */
  lemma WalksDisjoint(front: seq<ListNode>, i: int, ring: seq<int>, geo: Oracle, k: nat, m: nat)
    requires Antisymmetric(geo)
    requires FrontOk(front, i) && IsRing(front, i, ring)
    requires k < |ring| && m < |ring|
    requires VisibleFor(front, i, Rightward, ring[0], k, geo)
    requires var stop := Follow(front, i, Leftward, ring[0], m);
      !Visible(geo, Leftward, stop, Neighbour(front, stop, Leftward), i)
    ensures k + m < |ring|
  {
    var c := |ring|;
    if k + m >= c {
      var x := c - m - 1;
      var ext := Closed(ring);
      RingLeft(front, i, ring, c, m);
      RingRight(front, i, ring, 0, x);
      RingRight(front, i, ring, 0, x + 1);
      assert false;
    }
  }

  // ---------------------------------------------------------------------
  // The splice

  /** The points left on the hull after adding i: from the right walk's
      stop (the k-th point of the cycle) round to the left walk's stop (the
      d-th point of the closed cycle). */
  function Arc(ring: seq<int>, k: int, d: int): (arc: seq<int>)
    requires 0 <= k < d <= |ring|
    ensures |arc| >= 1
  {
    if k == 0 && d == |ring| then [ring[0]] else Closed(ring)[k..d + 1]
  }

  /** The splice facts that AddPointToTriangulation establishes, for stops
      R (right) and L (left). */
  predicate Spliced(front: seq<ListNode>, f: seq<ListNode>, i: int, L: int, R: int)
    requires 0 <= i < |f| == |front| && 0 <= L < |f| && 0 <= R < |f|
  {
    f[i] == ListNode(L, R) && f[R].left == i && f[L].right == i &&
    (L != R ==> f[R].right == front[R].right && f[L].left == front[L].left) &&
    forall j :: 0 <= j < |f| && j != i && j != L && j != R ==> f[j] == front[j]
  }

  /** The links of a general arc in the new cycle [i] + arc. */
  lemma ArcLink(front: seq<ListNode>, f: seq<ListNode>, i: int, ring: seq<int>, k: int, d: int, q: int)
    requires IsRing(front, i, ring) && i < |front| && |f| == |front|
    requires 0 <= k < d <= |ring| && !(k == 0 && d == |ring|)
    requires Spliced(front, f, i, Closed(ring)[d], Closed(ring)[k])
    requires 1 <= q < d - k + 1
    ensures f[Closed(ring)[k + q - 1]].right == Closed(ring)[k + q] && f[Closed(ring)[k + q]].left == Closed(ring)[k + q - 1]
  {
    var ext := Closed(ring);
    var a, b := ext[k + q - 1], ext[k + q];
    var L, R := ext[d], ext[k];
    ClosedDistinct(front, i, ring, k, d);
    ClosedDistinct(front, i, ring, k + q - 1, d);
    assert a != L;
    if k + q < d {
      ClosedDistinct(front, i, ring, k + q, d);
    }
    ClosedDistinct(front, i, ring, k, k + q);
    assert b != R;
    assert front[a].right == b && front[b].left == a;
    if a == R {
      assert f[a].right == front[a].right;
    } else {
      assert f[a] == front[a];
    }
    if b == L {
      assert f[b].left == front[b].left;
    } else {
      assert f[b] == front[b];
    }
  }

  /** i followed by a proper arc of the cycle lists distinct points below
      i + 1. */
  lemma ArcDistinct(front: seq<ListNode>, i: int, ring: seq<int>, k: int, d: int)
    requires IsRing(front, i, ring)
    requires 0 <= k < d <= |ring| && !(k == 0 && d == |ring|)
    ensures var r := [i] + Closed(ring)[k..d + 1];
      (forall a, b :: 0 <= a < b < |r| ==> r[a] != r[b]) && forall x :: 0 <= x < |r| ==> 0 <= r[x] < i + 1
  {
    var arc := Closed(ring)[k..d + 1];
    forall a, b | 0 <= a < b < |arc|
      ensures arc[a] != arc[b]
    {
      ClosedDistinct(front, i, ring, k + a, k + b);
    }
    assert forall x :: 0 <= x < |arc| ==> 0 <= arc[x] < i;
  }

  /** Splicing i in between two stops that are not the same point gives the
      cycle of i and the arc between them. */
  lemma SpliceArc(front: seq<ListNode>, f: seq<ListNode>, i: int, ring: seq<int>, k: int, d: int)
    requires IsRing(front, i, ring) && i < |front| && |f| == |front|
    requires 0 <= k < d <= |ring| && !(k == 0 && d == |ring|)
    requires Spliced(front, f, i, Closed(ring)[d], Closed(ring)[k])
    ensures IsRing(f, i + 1, [i] + Closed(ring)[k..d + 1])
  {
    var ext := Closed(ring);
    var r := [i] + ext[k..d + 1];
    ArcDistinct(front, i, ring, k, d);
    var cr := Closed(r);
    forall x | 0 <= x < |r|
      ensures f[cr[x]].right == cr[x + 1] && f[cr[x + 1]].left == cr[x]
    {
      if x == 0 {
        assert cr[0] == i && cr[1] == ext[k];
      } else if x == |r| - 1 {
        assert cr[x] == ext[d] && cr[x + 1] == i;
      } else {
        ArcLink(front, f, i, ring, k, d, x);
        assert cr[x] == ext[k + x - 1] && cr[x + 1] == ext[k + x];
      }
    }
  }

  /** Splicing i in between the two stops gives the cycle [i] + Arc. */
  lemma SpliceRing(front: seq<ListNode>, f: seq<ListNode>, i: int, ring: seq<int>, k: int, d: int)
    requires IsRing(front, i, ring) && i < |front| && |f| == |front|
    requires 0 <= k < d <= |ring|
    requires Spliced(front, f, i, Closed(ring)[d], Closed(ring)[k])
    ensures IsRing(f, i + 1, [i] + Arc(ring, k, d))
  {
    if k == 0 && d == |ring| {
      assert Closed([i, ring[0]]) == [i, ring[0], i];
    } else {
      SpliceArc(front, f, i, ring, k, d);
    }
  }

  // ---------------------------------------------------------------------
  // The invariant through the sweep

  /** AddPointToTriangulation keeps the hull front a cycle: the new cycle is
      i followed by the hull points from the right walk's stop round to the
      left walk's stop. */
  lemma AddPointKeepsRing(s: SweepState, i: int, cfg: Config, ring: seq<int>)
    requires 2 <= i < |s.front| && FrontOk(s.front, i)
    requires Antisymmetric(cfg.geo)
    requires IsRing(s.front, i, ring) && ring[0] == i - 1
    requires AddPoint(s, i, cfg).Ok?
    ensures exists k, d :: 0 <= k < d <= |ring| && IsRing(AddPoint(s, i, cfg).value.front, i + 1, [i] + Arc(ring, k, d))
  {
    var f := AddPoint(s, i, cfg).value.front;
    AddPointSplice(s, i, cfg);
    var right := Walk(Rightward, Fixer(i, cfg), s.graph, s.front, i - 1, i, cfg.geo, cfg.fuel);
    var k := StepsOnRing(Rightward, Fixer(i, cfg), s.graph, s.front, i, cfg.geo, cfg.fuel, ring);
    var m := StepsOnRing(Leftward, Fixer(i, cfg), right.value.graph, s.front, i, cfg.geo, cfg.fuel, ring);
    WalksDisjoint(s.front, i, ring, cfg.geo, k, m);
    var c := |ring|;
    RingRight(s.front, i, ring, 0, k);
    RingLeft(s.front, i, ring, c, m);
    SpliceRing(s.front, f, i, ring, k, c - m);
  }

  /** The same, stated as the invariant. */
  lemma AddPointKeepsHullRing(s: SweepState, i: int, cfg: Config)
    requires 2 <= i < |s.front| && FrontOk(s.front, i)
    requires Antisymmetric(cfg.geo)
    requires HullRing(s.front, i)
    requires AddPoint(s, i, cfg).Ok?
    ensures HullRing(AddPoint(s, i, cfg).value.front, i + 1)
  {
    var ring :| IsRing(s.front, i, ring) && ring[0] == i - 1;
    AddPointKeepsRing(s, i, cfg, ring);
    var k, d :| 0 <= k < d <= |ring| && IsRing(AddPoint(s, i, cfg).value.front, i + 1, [i] + Arc(ring, k, d));
    assert ([i] + Arc(ring, k, d))[0] == i;
  }

  /** A finished run leaves the hull front a cycle through point n - 1. */
  ghost predicate RingAfter(n: int, r: Result<SweepState>) {
    r.Ok? ==> HullRing(r.value.front, n)
  }

  /** `add` keeps the hull front a cycle at every point it inserts. */
  ghost predicate InsertsKeepingRing(add: (SweepState, int) --> Result<SweepState>) {
    forall s: SweepState, i: int {:trigger add.requires(s, i)} ::
      2 <= i < |s.front| && FrontOk(s.front, i) && HullRing(s.front, i) && add.requires(s, i) ==>
        RingAfter(i + 1, add(s, i))
  }

  /** The insertion loop keeps the hull front a cycle whenever each
      insertion does. */
  lemma {:induction false} InsertionsKeepRing(add: (SweepState, int) --> Result<SweepState>, s: SweepState, i: int)
    requires Inserts(add) && InsertsKeepingRing(add)
    requires 2 <= i <= |s.front| && FrontOk(s.front, i)
    requires HullRing(s.front, i)
    ensures RingAfter(|s.front|, Insertions(add, s, i))
    decreases |s.front| - i
  {
    if i < |s.front| {
      var r := InsertOne(add, s, i);
      InsertionsUnfold(add, s, i);
      if r.Ok? {
        assert RingAfter(i + 1, add(s, i));
        InsertionsKeepRing(add, r.value, i + 1);
      }
    } else {
      assert Insertions(add, s, i) == Ok(s);
    }
  }

  /** The insertion loop keeps the hull front a cycle. */
  lemma AddPointsKeepHullRing(s: SweepState, i: int, cfg: Config)
    requires 2 <= i <= |s.front| && FrontOk(s.front, i)
    requires Antisymmetric(cfg.geo)
    requires HullRing(s.front, i)
    ensures RingAfter(|s.front|, AddPoints(s, i, cfg))
  {
    var add := Adder(cfg);
    AdderInserts(cfg);
    forall s: SweepState, i: int {:trigger add.requires(s, i)}
      | 2 <= i < |s.front| && FrontOk(s.front, i) && HullRing(s.front, i) && add.requires(s, i)
      ensures RingAfter(i + 1, add(s, i))
    {
      if AddPoint(s, i, cfg).Ok? {
        AddPointKeepsHullRing(s, i, cfg);
      }
    }
    InsertionsKeepRing(add, s, i);
  }

  /** Build's seed front: 0 and 1 linked to each other both ways. */
  lemma SeedRing(n: nat)
    requires n >= 3
    ensures IsRing(Seed(n).front, 2, [1, 0])
  {
    assert Closed([1, 0]) == [1, 0, 1];
  }

  /** After a successful Build over at least three points, the hull front is
      a cycle through the last point. */
  lemma BuildKeepsHullRing(n: nat, geo: Oracle, fuel: nat)
    requires n >= 3 && Antisymmetric(geo)
    requires Build(n, geo, fuel).Ok?
    ensures HullRing(Build(n, geo, fuel).value.front, n)
  {
    SeedRing(n);
    assert HullRing(Seed(n).front, 2);
    AddPointsKeepHullRing(Seed(n), 2, BuilderConfig(n, geo, fuel));
  }

  /** Three distinct points below 3, each linked both ways to the next. */
  lemma TriangleRing(f: seq<ListNode>, a: int, b: int, c: int)
    requires 3 <= |f| && 0 <= a < 3 && 0 <= b < 3 && 0 <= c < 3 && a != b && b != c && a != c
    requires f[a].right == b && f[b].right == c && f[c].right == a
    requires f[b].left == a && f[c].left == b && f[a].left == c
    ensures IsRing(f, 3, [a, b, c])
  {
    var ext := Closed([a, b, c]);
    assert ext == [a, b, c, a];
    forall x | 0 <= x < 3
      ensures f[ext[x]].right == ext[x + 1] && f[ext[x + 1]].left == ext[x]
    {
    }
  }

  /** The legacy seed triangle: a cycle of 0, 1 and 2 read from 2, in the
      orientation the cross product picks. */
  lemma LegacySeedRing(n: nat, geo: Oracle)
    requires n >= 3
    ensures IsRing(Legacy.LegacySeed(n, geo).front, 3, if Legacy.Clockwise(geo) then [2, 0, 1] else [2, 1, 0])
  {
    var f := Legacy.LegacySeed(n, geo).front;
    if Legacy.Clockwise(geo) {
      TriangleRing(f, 2, 0, 1);
    } else {
      TriangleRing(f, 2, 1, 0);
    }
  }

  /** After a successful legacy construction over at least three points, the
      hull front is a cycle through the last point. */
  lemma ConstructKeepsHullRing(n: nat, geo: Oracle, fuel: nat)
    requires n >= 3 && Antisymmetric(geo)
    requires Legacy.Construct(n, geo, fuel).Ok?
    ensures HullRing(Legacy.Construct(n, geo, fuel).value.front, n)
  {
    LegacySeedRing(n, geo);
    var s := Legacy.LegacySeed(n, geo);
    assert HullRing(s.front, 3);
    AddPointsKeepHullRing(s, 3, Legacy.LegacyConfig(n, geo, fuel));
    assert Legacy.Construct(n, geo, fuel) == AddPoints(s, 3, Legacy.LegacyConfig(n, geo, fuel));
  }
}
