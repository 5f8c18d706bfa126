/** The legacy solver of main.cpp: the same sweep with its own apex-set
    struct, a flip written as erase-then-insert, a full triangle as the
    seed, a walk around the finished hull and an integer pass that counts
    the edge ends lying off the hull. */
module Legacy {
  import opened Models
  import opened Outcomes
  import opened Geometry
  import opened Legalize
  import opened Sweep

  /** The legacy `TwoVertices` (slots outer1 and outer2), updated in place. */
  class TwoVertices {
    var outer1: int
    var outer2: int

    /** The value currently held. */
    function Value(): Slots
      reads this
    {
      Slots(outer1, outer2)
    }

    constructor (s: Slots)
      ensures Value() == s
    {
      outer1, outer2 := s.v1, s.v2;
    }

    /** `insert`: a held value changes nothing; otherwise the first free
        slot takes it, which the assertion demands exists. */
    method Insert(v: int)
      requires Value().CanInsert(v)
      modifies this
      ensures Value() == old(Value()).Insert(v)
    {
      if outer1 == v || outer2 == v {
        return;
      }
      if outer1 == Absent {
        outer1 := v;
      } else {
        outer2 := v;
      }
    }

    /** `erase`: frees the first slot holding v, if any. */
    method Erase(v: int)
      modifies this
      ensures Value() == old(Value()).Erase(v)
    {
      if outer1 == v {
        outer1 := Absent;
      } else if outer2 == v {
        outer2 := Absent;
      }
    }

    /** `GetMax`: the larger slot of a non-empty set, its largest member
        when no member lies below the sentinel. */
    method GetMax() returns (m: int)
      requires Value().Size() > 0
      ensures m == Value().Max()
      ensures forall x :: x in Value().Members() ==> x <= m
    {
      m := if outer1 >= outer2 then outer1 else outer2;
    }

    /** `GetMin`: the smaller member when both slots are held, else the
        sole member. */
    method GetMin() returns (m: int)
      requires Value().Size() > 0
      ensures m == Value().Min()
      ensures m in Value().Members() && forall x :: x in Value().Members() ==> m <= x
    {
      if outer1 != Absent && outer2 != Absent {
        return if outer1 <= outer2 then outer1 else outer2;
      }
      return if outer1 != Absent then outer1 else outer2;
    }

    /** `size`: the number of occupied slots. */
    method Size() returns (k: nat)
      ensures k == Value().Size() && k <= 2
      ensures k == 0 <==> Value().Members() == {}
    {
      k := (if outer1 != Absent then 1 else 0) + (if outer2 != Absent then 1 else 0);
    }
  }

  // ---------------------------------------------------------------------
  // The construction

  /** The legacy run: one worklist slot per point and the erase-then-insert
      flip. */
  function LegacyConfig(n: nat, geo: Oracle, fuel: nat): Config {
    Config(geo, n, fuel, EraseThenInsert)
  }

  /** Points 0, 1, 2 turn clockwise: the cross product of p1 - p0 and
      p2 - p0 is negative. */
  predicate Clockwise(geo: Oracle) {
    geo.cross(1, 2, 0) < 0.0
  }

  /** The links Solve gives the first three points: a cycle through 0, 1
      and 2, run one way or the other according to the turn. */
  function SeedLinks(n: nat, clockwise: bool): (front: seq<ListNode>)
    requires n >= 3
    ensures |front| == n && FrontOk(front, 3)
    ensures forall p :: 0 <= p < 3 ==> front[front[p].right].left == p && front[front[p].left].right == p
    ensures forall p :: 0 <= p < 3 ==> front[front[front[p].right].right].right == p
    ensures forall p :: 0 <= p < 3 ==> front[p].left != front[p].right
  {
    var front := if clockwise then Unlinked(n)[0 := ListNode(2, 1)][1 := ListNode(0, 2)][2 := ListNode(1, 0)]
      else Unlinked(n)[0 := ListNode(1, 2)][1 := ListNode(2, 0)][2 := ListNode(0, 1)];
    assert clockwise ==> front[0] == ListNode(2, 1) && front[1] == ListNode(0, 2) && front[2] == ListNode(1, 0);
    assert !clockwise ==> front[0] == ListNode(1, 2) && front[1] == ListNode(2, 0) && front[2] == ListNode(0, 1);
    front
  }

  /** The seed of Solve: the triangle (0, 1, 2) in the store, each edge with
      the third point as its apex, and the three-point cycle as the front. */
  function LegacySeed(n: nat, geo: Oracle): (s: SweepState)
    requires n >= 3
    ensures |s.front| == n && FrontOk(s.front, 3)
    ensures GraphInv(s.graph, 2)
    ensures s.graph.Keys == {Edge(0, 1), Edge(0, 2), Edge(1, 2)}
  {
    TriangleInv();
    SweepState(Triangle(), SeedLinks(n, Clockwise(geo)))
  }

  /** The construction part of Solve: fewer than three points add no edge;
      otherwise seed the triangle and add points 3..n-1. */
  function Construct(n: nat, geo: Oracle, fuel: nat): (r: Result<SweepState>)
    ensures n < 3 ==> r == Ok(SweepState(map[], Unlinked(n)))
    ensures r.Ok? ==> |r.value.front| == n
    ensures n >= 3 && r.Ok? ==> FrontOk(r.value.front, n)
  {
    if n < 3 then Ok(SweepState(map[], Unlinked(n)))
    else AddPoints(LegacySeed(n, geo), 3, LegacyConfig(n, geo, fuel))
  }

  /** A finished construction leaves a store whose keys are canonical pairs
      of distinct points below n, each with one or two apexes below n other
      than its endpoints. */
  lemma ConstructKeepsInv(n: nat, geo: Oracle, fuel: nat)
    requires Construct(n, geo, fuel).Ok?
    ensures GraphInv(Construct(n, geo, fuel).value.graph, n - 1)
  {
    if n > 3 {
      GraphInvMonotone(Triangle(), 2, 3);
      AddPointsKeepsInv(LegacySeed(n, geo), 3, LegacyConfig(n, geo, fuel));
    }
  }

  // ---------------------------------------------------------------------
  // The hull walk

  /** The points met following right links from h, up to the first link
      that leads back to 0. */
  function Circuit(front: seq<ListNode>, n: int, h: int, fuel: nat): (r: Result<set<int>>)
    requires FrontOk(front, n) && 0 <= h < n
    ensures r.Ok? ==> forall p :: p in r.value ==> 0 < p < n
    decreases fuel
  {
    var next := front[h].right;
    if next == 0 then Ok({})
    else if fuel == 0 then Fail(OutOfFuel)
    else
      var rest :- Circuit(front, n, next, fuel - 1);
      Ok({next} + rest)
  }

  /** The hull set of Solve: 0, then every point reached by right links
      until the walk is back at 0. */
  function HullCycle(front: seq<ListNode>, n: int, fuel: nat): (r: Result<set<int>>)
    requires FrontOk(front, n) && n >= 1
    ensures r.Ok? ==> 0 in r.value && forall p :: p in r.value ==> 0 <= p < n
  {
    var rest :- Circuit(front, n, 0, fuel);
    Ok({0} + rest)
  }

  /** The first k + 1 points of the right walk from h are `hull`, and none
      after h is 0. */
  predicate WalkedOnto(front: seq<ListNode>, n: int, h: int, k: nat, hull: set<int>)
    requires FrontOk(front, n) && 0 <= h < n
  {
    (forall j: nat :: j <= k ==> Follow(front, n, Rightward, h, j) in hull) &&
    (forall p :: p in hull ==> exists j: nat :: j <= k && Follow(front, n, Rightward, h, j) == p) &&
    (forall j: nat :: 0 < j <= k ==> Follow(front, n, Rightward, h, j) != 0)
  }

  /** A partial hull joined with the rest of a walk. */
  function Joined(hull: set<int>, rest: Result<set<int>>): (r: Result<set<int>>)
    ensures r.Ok? <==> rest.Ok?
    ensures r.Ok? ==> r.value == hull + rest.value
  {
    match rest
    case Ok(more) => Ok(hull + more)
    case Fail(why) => Fail(why)
  }

  /** A walk that finishes has gone round a cycle through 0: for some k,
      the hull is exactly the first k + 1 points met from 0, none of them
      but the first is 0, and the next link leads back to 0. */
  lemma HullCycleCloses(front: seq<ListNode>, n: int, fuel: nat)
    requires FrontOk(front, n) && n >= 1
    requires HullCycle(front, n, fuel).Ok?
    ensures exists k: nat :: k <= fuel && WalkedOnto(front, n, 0, k, HullCycle(front, n, fuel).value) &&
              Follow(front, n, Rightward, 0, k + 1) == 0
  {
    CircuitCloses(front, n, 0, fuel);
    var k: nat :| k <= fuel && WalkedOnto(front, n, 0, k, {0} + Circuit(front, n, 0, fuel).value) &&
      Follow(front, n, Rightward, 0, k + 1) == 0;
    assert HullCycle(front, n, fuel).value == {0} + Circuit(front, n, 0, fuel).value;
  }

  lemma {:induction false} CircuitCloses(front: seq<ListNode>, n: int, h: int, fuel: nat)
    requires FrontOk(front, n) && 0 <= h < n
    requires Circuit(front, n, h, fuel).Ok?
    ensures exists k: nat :: k <= fuel && WalkedOnto(front, n, h, k, {h} + Circuit(front, n, h, fuel).value) &&
              Follow(front, n, Rightward, h, k + 1) == 0
    decreases fuel
  {
    var next := front[h].right;
    var hull := {h} + Circuit(front, n, h, fuel).value;
    assert Follow(front, n, Rightward, h, 1) == next;
    if next == 0 {
      assert hull == {h};
      forall p | p in hull
        ensures exists j: nat :: j <= 0 && Follow(front, n, Rightward, h, j) == p
      {
        assert Follow(front, n, Rightward, h, 0) == p;
      }
      assert WalkedOnto(front, n, h, 0, hull);
    } else {
      CircuitCloses(front, n, next, fuel - 1);
      var rest := {next} + Circuit(front, n, next, fuel - 1).value;
      assert hull == {h} + rest;
      var k: nat :| k <= fuel - 1 && WalkedOnto(front, n, next, k, rest) && Follow(front, n, Rightward, next, k + 1) == 0;
      forall j: nat | 0 < j <= k + 2
        ensures Follow(front, n, Rightward, h, j) == Follow(front, n, Rightward, next, j - 1)
      {
      }
      forall p | p in hull
        ensures exists j: nat :: j <= k + 1 && Follow(front, n, Rightward, h, j) == p
      {
        if p == h {
          assert Follow(front, n, Rightward, h, 0) == p;
        } else {
          var j: nat :| j <= k && Follow(front, n, Rightward, next, j) == p;
          assert Follow(front, n, Rightward, h, j + 1) == p;
        }
      }
      assert WalkedOnto(front, n, h, k + 1, hull);
    }
  }

  /** A set of points below n has at most n elements. */
  lemma {:induction false} PointSetSize(s: set<int>, n: nat)
    requires forall p :: p in s ==> 0 <= p < n
    ensures |s| <= n
    decreases n
  {
    if n == 0 {
      assert forall p :: p !in s;
    } else {
      var s' := s - {n - 1};
      assert |s| <= |s'| + 1;
      PointSetSize(s', n - 1);
    }
  }

  // ---------------------------------------------------------------------
  // The count

  /** How many of e's two endpoints lie off the hull. */
  function OffEnds(e: Edge, hull: set<int>): (k: nat)
    ensures k <= 2
    ensures k == 0 <==> e.v1 in hull && e.v2 in hull
  {
    (if e.v1 in hull then 0 else 1) + (if e.v2 in hull then 0 else 1)
  }

  /** The number of (edge, endpoint) pairs, over `keys`, with the endpoint
      off the hull. */
  ghost function OffHullEnds(keys: set<Edge>, hull: set<int>): nat
    decreases keys
  {
    if keys == {} then 0
    else
      var e :| e in keys;
      OffEnds(e, hull) + OffHullEnds(keys - {e}, hull)
  }

  /** The pairs can be counted starting from any edge. */
  lemma {:induction false} OffHullEndsRemove(keys: set<Edge>, e: Edge, hull: set<int>)
    requires e in keys
    ensures OffHullEnds(keys, hull) == OffEnds(e, hull) + OffHullEnds(keys - {e}, hull)
    decreases keys
  {
    var d :| d in keys && OffHullEnds(keys, hull) == OffEnds(d, hull) + OffHullEnds(keys - {d}, hull);
    if d != e {
      OffHullEndsRemove(keys - {d}, e, hull);
      OffHullEndsRemove(keys - {e}, d, hull);
      assert keys - {d} - {e} == keys - {e} - {d};
    }
  }

  /** Each edge has two endpoints, so the count is at most twice the
      number of edges. */
  lemma {:induction false} OffHullEndsBound(keys: set<Edge>, hull: set<int>)
    ensures OffHullEnds(keys, hull) <= 2 * |keys|
    decreases keys
  {
    if keys != {} {
      var e :| e in keys;
      OffHullEndsRemove(keys, e, hull);
      OffHullEndsBound(keys - {e}, hull);
    }
  }

  /** With every point on the hull no edge end is off it. */
  lemma {:induction false} OffHullEndsAllOnHull(keys: set<Edge>, hull: set<int>)
    requires forall e :: e in keys ==> e.v1 in hull && e.v2 in hull
    ensures OffHullEnds(keys, hull) == 0
    decreases keys
  {
    if keys != {} {
      var e :| e in keys;
      OffHullEndsRemove(keys, e, hull);
      OffHullEndsAllOnHull(keys - {e}, hull);
    }
  }

  /** The count of Solve: start from twice the number of edges and take one
      off per edge end on the hull. Every step stays non-negative, so the
      unsigned counter never wraps, and the result is the number of edge
      ends off the hull. */
  method CountOffHull(t: Graph, hull: set<int>) returns (ans: nat)
    ensures ans == OffHullEnds(t.Keys, hull)
    ensures ans <= 2 * |t|
  {
    ans := 2 * |t|;
    var todo := t.Keys;
    while todo != {}
      invariant todo <= t.Keys
      invariant ans == 2 * |todo| + OffHullEnds(t.Keys - todo, hull)
      decreases |todo|
    {
      var e :| e in todo;
      ghost var done := t.Keys - todo;
      assert (done + {e}) - {e} == done;
      OffHullEndsRemove(done + {e}, e, hull);
      assert t.Keys - (todo - {e}) == done + {e};
      if e.v1 in hull {
        ans := ans - 1;
      }
      if e.v2 in hull {
        ans := ans - 1;
      }
      todo := todo - {e};
    }
    assert t.Keys - todo == t.Keys;
    OffHullEndsBound(t.Keys, hull);
  }

  // ---------------------------------------------------------------------
  // The whole of Solve

  /** What Solve prints: 0, or the count of edge ends off the hull over the
      number of points off the hull. */
  datatype Report = Zero | Average(ends: nat, interior: nat)

  /** The report for a finished construction and its hull: 0 when every
      point is on the hull, otherwise the edge ends off the hull over the
      points off it. */
  ghost function Tally(t: Graph, n: nat, hull: set<int>): (r: Report)
    requires forall p :: p in hull ==> 0 <= p < n
    ensures r.Average? ==> 0 < r.interior <= n
    ensures r.Zero? <==> |hull| == n
  {
    PointSetSize(hull, n);
    if n == |hull| then Zero
    else Average(OffHullEnds(t.Keys, hull), n - |hull|)
  }

  /** Solve over n sorted points: fewer than three give 0; otherwise build,
      walk the hull, count, and report. */
  ghost function Solution(n: nat, geo: Oracle, fuel: nat): (r: Result<Report>)
    ensures n < 3 ==> r == Ok(Zero)
  {
    if n < 3 then Ok(Zero)
    else
      var s :- Construct(n, geo, fuel);
      var hull :- HullCycle(s.front, n, fuel);
      Ok(Tally(s.graph, n, hull))
  }

  /** The hull walk round the seed cycle visits 0, 1 and 2. */
  lemma SeedHull(clockwise: bool, fuel: nat)
    requires fuel >= 2
    ensures HullCycle(SeedLinks(3, clockwise), 3, fuel) == Ok({0, 1, 2})
  {
    var f := SeedLinks(3, clockwise);
    var a, b := if clockwise then 1 else 2, if clockwise then 2 else 1;
    assert f[0].right == a && f[a].right == b && f[b].right == 0;
    assert Circuit(f, 3, b, fuel - 2) == Ok({});
    assert {b} + {} == {b};
    assert Circuit(f, 3, a, fuel - 1) == Ok({b});
    assert {a} + {b} == {a, b};
    assert Circuit(f, 3, 0, fuel) == Ok({a, b});
    assert {0} + {a, b} == {0, 1, 2};
  }

  /** With three points the seed is the whole construction. */
  lemma ConstructThree(geo: Oracle, fuel: nat)
    ensures Construct(3, geo, fuel) == Ok(LegacySeed(3, geo))
  {
    var s := LegacySeed(3, geo);
    assert AddPoints(s, 3, LegacyConfig(3, geo, fuel)) == Ok(s);
  }

  /** Three points: the seed is the whole triangulation, the hull walk goes
      round the triangle, every point is on the hull, and Solve prints 0. */
  lemma ThreePointsNoInterior(geo: Oracle, fuel: nat)
    requires fuel >= 2
    ensures HullCycle(LegacySeed(3, geo).front, 3, fuel) == Ok({0, 1, 2})
    ensures Solution(3, geo, fuel) == Ok(Zero)
  {
    ConstructThree(geo, fuel);
    var s := LegacySeed(3, geo);
    SeedHull(Clockwise(geo), fuel);
    assert |{0, 1, 2}| == 3;
    assert Tally(s.graph, 3, {0, 1, 2}) == Zero;
  }

  // ---------------------------------------------------------------------
  // The solver

  /** `Solver`: the links of the sorted points, the worklist array and the
      store, all updated in place. Coordinates live in the oracle. */
  class Solver {
    /** The number of points, the geometry oracle and the iteration bound. */
    const n: nat
    const geo: Oracle
    const fuel: nat
    /** The `left` and `right` links of `points`. */
    const points: array<ListNode>
    /** `recursionStack`, one slot per point. */
    const recursionStack: array<Edge>
    /** `triangulation`. */
    var triangulation: Graph

    /** The configuration the functional model runs this solver with. */
    function Cfg(): Config {
      LegacyConfig(n, geo, fuel)
    }

    /** Both arrays have one slot per point. */
    predicate Valid() {
      points.Length == n && recursionStack.Length == n
    }

    /** The solver's state as the functional model sees it. */
    function State(): SweepState
      reads this, points
    {
      SweepState(triangulation, points[..])
    }

    /** A solver over n points read and sorted: links 0, an empty store. */
    constructor (n: nat, geo: Oracle, fuel: nat)
      ensures this.n == n && this.geo == geo && this.fuel == fuel && Valid()
      ensures triangulation == map[] && points[..] == Unlinked(n)
      ensures fresh(points) && fresh(recursionStack)
    {
      this.n, this.geo, this.fuel := n, geo, fuel;
      triangulation := map[];
      points := new ListNode[n](_ => ListNode(0, 0));
      recursionStack := new Edge[n](_ => Edge(Absent, Absent));
      new;
      assert points[..] == Unlinked(n);
    }

    /** `triangulation[e].insert(v)`: a missing key is first created empty. */
    method InsertApexAt(e: Edge, v: int) returns (ok: bool)
      modifies this
      ensures Outcome(if ok then Done else Abort(ApexOverflow), triangulation) == InsertAt(old(triangulation), e, v)
      ensures !ok ==> triangulation == old(triangulation)
    {
      var cell := new TwoVertices(At(triangulation, e));
      if !cell.Value().CanInsert(v) {
        return false;
      }
      cell.Insert(v);
      triangulation := triangulation[e := cell.Value()];
      return true;
    }

    /** `triangulation[e].erase(u)` then `triangulation[e].insert(v)`. */
    method EraseInsertAt(e: Edge, u: int, v: int) returns (ok: bool)
      modifies this
      ensures Outcome(if ok then Done else Abort(ApexOverflow), triangulation) == SwapAt(old(triangulation), e, u, v, EraseThenInsert)
      ensures !ok ==> triangulation == old(triangulation)
    {
      var cell := new TwoVertices(At(triangulation, e));
      cell.Erase(u);
      if !cell.Value().CanInsert(v) {
        return false;
      }
      cell.Insert(v);
      triangulation := triangulation[e := cell.Value()];
      return true;
    }

    /** The body of restructure's loop for the popped edge (left, right). */
    method RestructureEdge(e: Edge, cur: int) returns (status: Status, pushed: seq<Edge>)
      modifies this
      ensures Outcome(status, Step(triangulation, pushed)) == FixStep(old(triangulation), e, cur, Cfg())
      ensures |pushed| == 0 || |pushed| == 2
    {
      var left, right := e.v1, e.v2;
      var key := Canonical(left, right);
      var cell := new TwoVertices(At(triangulation, key));
      var size := cell.Size();
      if size == 0 {
        return Abort(EmptyApex), [];
      }
      var innerPt := cell.GetMin();
      var ok;
      if CheckDelaunayCondition(geo, left, right, cur, innerPt) {
        ghost var g0 := triangulation;
        ok := InsertApexAt(Edge(right, cur), left);
        if !ok {
          return Abort(ApexOverflow), [];
        }
        ok := InsertApexAt(Edge(left, cur), right);
        if !ok {
          return Abort(ApexOverflow), [];
        }
        ok := InsertApexAt(key, cur);
        if !ok {
          return Abort(ApexOverflow), [];
        }
        assert LegalStep(g0, left, right, cur) == Ok(triangulation);
        return Done, [];
      }
      ghost var g0 := triangulation;
      ok := EraseInsertAt(Edge(right, cur), left, innerPt);
      if !ok {
        return Abort(ApexOverflow), [];
      }
      ok := EraseInsertAt(Edge(left, cur), right, innerPt);
      if !ok {
        return Abort(ApexOverflow), [];
      }
      ok := EraseInsertAt(Canonical(innerPt, left), right, cur);
      if !ok {
        return Abort(ApexOverflow), [];
      }
      ok := EraseInsertAt(Canonical(innerPt, right), left, cur);
      if !ok {
        return Abort(ApexOverflow), [];
      }
      triangulation := triangulation - {key};
      assert FlipStep(g0, left, right, cur, innerPt, EraseThenInsert) == Ok(triangulation);
      return Done, [Edge(left, innerPt), Edge(innerPt, right)];
    }

    /** The pushes after a flip: each edge goes into the next free slot,
        and the construction stops when the slots run out. */
    method PushEdges(size: nat, pushed: seq<Edge>) returns (ok: bool, size': nat)
      requires Valid() && size <= n && (|pushed| == 0 || |pushed| == 2)
      modifies recursionStack
      ensures ok <==> size + |pushed| <= n
      ensures ok ==> size' == size + |pushed| && recursionStack[..size'] == old(recursionStack[..size]) + pushed
      ensures size' <= n
    {
      size' := size;
      if pushed != [] {
        if size' >= n {
          return false, size';
        }
        recursionStack[size'] := pushed[0];
        size' := size' + 1;
        if size' >= n {
          return false, size';
        }
        recursionStack[size'] := pushed[1];
        size' := size' + 1;
        assert recursionStack[..size'] == old(recursionStack[..size]) + [pushed[0], pushed[1]];
      }
      return true, size';
    }

    /** One pass of restructure's loop over the worklist slots 0..size-1. */
    method PopAndRestructure(size: nat, cur: int, ghost steps: nat) returns (status: Status, size': nat)
      requires Valid() && 0 < size <= n && steps > 0
      modifies this, recursionStack
      ensures size' <= n
      ensures Drain(Stepper(cur, Cfg()), old(triangulation), old(recursionStack[..size]), n, steps) ==
                if status == Done then Drain(Stepper(cur, Cfg()), triangulation, recursionStack[..size'], n, steps - 1)
                else Fail(status.why)
    {
      ghost var g0 := triangulation;
      var top := recursionStack[size - 1];
      size' := size - 1;
      ghost var rest := recursionStack[..size'];
      assert recursionStack[..size] == rest + [top];
      ghost var step := Stepper(cur, Cfg());
      DrainPop(step, g0, rest, top, n, steps);
      var st, pushed := RestructureEdge(top, cur);
      if st.Abort? {
        return st, size';
      }
      assert step(g0, top) == Ok(Step(triangulation, pushed));
      var ok;
      ok, size' := PushEdges(size', pushed);
      if !ok {
        return Abort(StackOverflow), size';
      }
      LastInFirstOut(step, g0, rest, top, n, steps);
      return Done, size';
    }

    /** restructure(left, right, cur): legalise edges off the array
        worklist, last pushed first, until it is empty. */
    method Restructure(left: int, right: int, cur: int) returns (status: Status)
      requires Valid() && n >= 1
      modifies this, recursionStack
      ensures Outcome(status, triangulation) == Fix(old(triangulation), Edge(left, right), cur, Cfg())
    {
      recursionStack[0] := Edge(left, right);
      var stackSize := 1;
      var steps := fuel;
      assert recursionStack[..stackSize] == [Edge(left, right)];
      while stackSize > 0
        invariant 0 <= stackSize <= n
        invariant Drain(Stepper(cur, Cfg()), triangulation, recursionStack[..stackSize], n, steps) ==
                  Fix(old(triangulation), Edge(left, right), cur, Cfg())
        decreases steps
      {
        if steps == 0 {
          return Abort(OutOfFuel);
        }
        status, stackSize := PopAndRestructure(stackSize, cur, steps);
        if status.Abort? {
          return;
        }
        steps := steps - 1;
      }
      return Done;
    }

    /** The first walk of Solve's insertion loop: from i - 1 along the
        right links, restructure every front edge visible from i; stop at
        the first point whose right edge is hidden. */
    method WalkRight(i: int) returns (stop: int, status: Status)
      requires Valid() && 3 <= i < n && FrontOk(points[..], i)
      modifies this, recursionStack
      ensures Outcome(status, Walked(triangulation, stop)) ==
              Walk(Rightward, Fixer(i, Cfg()), old(triangulation), points[..], i - 1, i, geo, fuel)
    {
      ghost var g0 := triangulation;
      ghost var fix := Fixer(i, Cfg());
      stop := i - 1;
      var steps := fuel;
      while RightVisible(geo, stop, points[stop].right, i)
        invariant 0 <= stop < i
        invariant Walk(Rightward, fix, triangulation, points[..], stop, i, geo, steps) ==
                  Walk(Rightward, fix, g0, points[..], i - 1, i, geo, fuel)
        decreases steps
      {
        if steps == 0 {
          return stop, Abort(OutOfFuel);
        }
        status := Restructure(stop, points[stop].right, i);
        if status.Abort? {
          return;
        }
        stop := points[stop].right;
        steps := steps - 1;
      }
      status := Done;
    }

    /** The second walk: from i - 1 along the left links, likewise. */
    method WalkLeft(i: int) returns (stop: int, status: Status)
      requires Valid() && 3 <= i < n && FrontOk(points[..], i)
      modifies this, recursionStack
      ensures Outcome(status, Walked(triangulation, stop)) ==
              Walk(Leftward, Fixer(i, Cfg()), old(triangulation), points[..], i - 1, i, geo, fuel)
    {
      ghost var g0 := triangulation;
      ghost var fix := Fixer(i, Cfg());
      stop := i - 1;
      var steps := fuel;
      while LeftVisible(geo, stop, points[stop].left, i)
        invariant 0 <= stop < i
        invariant Walk(Leftward, fix, triangulation, points[..], stop, i, geo, steps) ==
                  Walk(Leftward, fix, g0, points[..], i - 1, i, geo, fuel)
        decreases steps
      {
        if steps == 0 {
          return stop, Abort(OutOfFuel);
        }
        status := Restructure(points[stop].left, stop, i);
        if status.Abort? {
          return;
        }
        stop := points[stop].left;
        steps := steps - 1;
      }
      status := Done;
    }

    /** One iteration of Solve's insertion loop: walk right from i - 1,
        then left, restructuring every visible edge, then splice i in. */
    method AddPoint(i: int) returns (status: Status)
      requires Valid() && 3 <= i < n && FrontOk(points[..], i)
      modifies this, points, recursionStack
      ensures Outcome(status, State()) == Sweep.AddPoint(old(State()), i, Cfg())
    {
      var rightStop, leftStop;
      rightStop, status := WalkRight(i);
      if status.Abort? {
        return;
      }
      points[i] := ListNode(points[i].left, rightStop);
      leftStop, status := WalkLeft(i);
      if status.Abort? {
        return;
      }
      points[i] := ListNode(leftStop, points[i].right);
      var r := points[i].right;
      points[r] := ListNode(i, points[r].right);
      points[leftStop] := ListNode(points[leftStop].left, i);
    }

    /** The seed of Solve: link 0, 1, 2 into a cycle oriented by their turn
        and register the triangle's three edges. */
    method SeedTriangle()
      requires Valid() && n >= 3 && triangulation == map[] && points[..] == Unlinked(n)
      modifies this, points
      ensures State() == LegacySeed(n, geo)
    {
      LinkSeed();
      RegisterSeed();
    }

    /** The links of the seed: a cycle through 0, 1 and 2, run one way or
        the other according to the turn. */
    method LinkSeed()
      requires Valid() && n >= 3 && points[..] == Unlinked(n)
      modifies points
      ensures points[..] == SeedLinks(n, Clockwise(geo))
    {
      if geo.cross(1, 2, 0) < 0.0 {
        points[0] := ListNode(2, 1);
        points[1] := ListNode(0, 2);
        points[2] := ListNode(1, 0);
      } else {
        points[0] := ListNode(1, 2);
        points[1] := ListNode(2, 0);
        points[2] := ListNode(0, 1);
      }
    }

    /** The edges of the seed: each side of the triangle (0, 1, 2) gets the
        third point as its apex. */
    method RegisterSeed()
      requires triangulation == map[]
      modifies this
      ensures triangulation == Triangle()
    {
      var ok := InsertApexAt(Edge(1, 2), 0);
      ok := InsertApexAt(Edge(0, 1), 2);
      ok := InsertApexAt(Edge(0, 2), 1);
      assert triangulation == Triangle();
    }

    /** The hull walk of Solve: from 0 along right links until back at 0. */
    method HullWalk() returns (status: Status, convexHull: set<int>)
      requires Valid() && n >= 1 && FrontOk(points[..], n)
      ensures Outcome(status, convexHull) == HullCycle(points[..], n, fuel)
    {
      convexHull := {0};
      var hullPoint := 0;
      var steps := fuel;
      assert HullCycle(points[..], n, fuel) == Joined(convexHull, Circuit(points[..], n, hullPoint, steps));
      while points[hullPoint].right != 0
        invariant 0 <= hullPoint < n
        invariant HullCycle(points[..], n, fuel) == Joined(convexHull, Circuit(points[..], n, hullPoint, steps))
        decreases steps
      {
        if steps == 0 {
          return Abort(OutOfFuel), convexHull;
        }
        ghost var rest := Circuit(points[..], n, points[hullPoint].right, steps - 1);
        assert Circuit(points[..], n, hullPoint, steps) == Joined({points[hullPoint].right}, rest);
        assert rest.Ok? ==> convexHull + ({points[hullPoint].right} + rest.value) == convexHull + {points[hullPoint].right} + rest.value;
        hullPoint := points[hullPoint].right;
        convexHull := convexHull + {hullPoint};
        steps := steps - 1;
      }
      assert convexHull + {} == convexHull;
      return Done, convexHull;
    }

    /** The construction part of Solve: seed the triangle, then add points
        3..n-1 in order. */
    method Triangulate() returns (status: Status)
      requires Valid() && n >= 3 && triangulation == map[] && points[..] == Unlinked(n)
      modifies this, points, recursionStack
      ensures Outcome(status, State()) == Construct(n, geo, fuel)
    {
      SeedTriangle();
      assert Construct(n, geo, fuel) == AddPoints(LegacySeed(n, geo), 3, Cfg());
      var i := 3;
      while i < n
        invariant 3 <= i <= n && FrontOk(points[..], i)
        invariant AddPoints(State(), i, Cfg()) == Construct(n, geo, fuel)
      {
        AddPointsStep(State(), i, Cfg());
        status := AddPoint(i);
        if status.Abort? {
          return;
        }
        i := i + 1;
      }
      return Done;
    }

    /** Solve on a fresh solver: fewer than three points print 0; otherwise
        build, walk the hull, count, and report. */
    method Solve() returns (status: Status, report: Report)
      requires Valid() && triangulation == map[] && points[..] == Unlinked(n)
      modifies this, points, recursionStack
      ensures Outcome(status, report) == Solution(n, geo, fuel)
    {
      if n < 3 {
        return Done, Zero;
      }
      status := Triangulate();
      if status.Abort? {
        return status, Zero;
      }
      var convexHull;
      status, convexHull := HullWalk();
      if status.Abort? {
        return status, Zero;
      }
      var ans := CountOffHull(triangulation, convexHull);
      PointSetSize(convexHull, n);
      if n == |convexHull| {
        report := Zero;
      } else {
        report := Average(ans, n - |convexHull|);
      }
      assert report == Tally(triangulation, n, convexHull);
    }
  }
}
