/** DelaunayBuilder of src/scanline_triangulation.cpp as a class: the store
    is a map field updated in place, the hull front and the worklist are
    arrays, and every method is proved to compute what the functional
    model of the Legalize and Sweep modules describes. */
module Builder {
  import opened Models
  import opened Outcomes
  import opened Geometry
  import opened Legalize
  import opened Sweep

  class DelaunayBuilder {
    /** The number of points, the geometry oracle and the iteration bound. */
    const n: nat
    const geo: Oracle
    const fuel: nat
    /** `triangulation_.graph`. */
    var graph: Graph
    /** `convex_hull_`: the hull front, one node per point. */
    const convexHull: array<ListNode>
    /** `recursion_stack_`: the worklist, one slot per point. */
    const recursionStack: array<Edge>

    /** The configuration the functional model runs this builder with. */
    function Cfg(): Config {
      BuilderConfig(n, geo, fuel)
    }

    /** Both arrays have one slot per point. */
    predicate Valid() {
      convexHull.Length == n && recursionStack.Length == n
    }

    /** The builder's state as the functional model sees it. */
    function State(): SweepState
      reads this, convexHull
    {
      SweepState(graph, convexHull[..])
    }

    /** A builder over n sorted points, before Build: an empty store and
        value-initialised arrays. */
    constructor (n: nat, geo: Oracle, fuel: nat)
      ensures this.n == n && this.geo == geo && this.fuel == fuel && Valid()
      ensures graph == map[] && convexHull[..] == Unlinked(n)
      ensures fresh(convexHull) && fresh(recursionStack)
    {
      this.n, this.geo, this.fuel := n, geo, fuel;
      graph := map[];
      convexHull := new ListNode[n](_ => ListNode(0, 0));
      recursionStack := new Edge[n](_ => Edge(Absent, Absent));
      new;
      assert convexHull[..] == Unlinked(n);
    }

    /** `graph_[e].Insert(v)`: a missing key is first created empty. */
    method InsertApexAt(e: Edge, v: int) returns (ok: bool)
      modifies this
      ensures Outcome(if ok then Done else Abort(ApexOverflow), graph) == InsertAt(old(graph), e, v)
      ensures !ok ==> graph == old(graph)
    {
      var cell := new TwoVertices(At(graph, e));
      if !cell.Value().CanInsert(v) {
        return false;
      }
      cell.Insert(v);
      graph := graph[e := cell.Value()];
      return true;
    }

    /** `graph_[e].Replace(u, v)`: a missing key is first created empty. */
    method ReplaceAt(e: Edge, u: int, v: int) returns (ok: bool)
      modifies this
      ensures Outcome(if ok then Done else Abort(ApexOverflow), graph) == SwapAt(old(graph), e, u, v, ReplaceApex)
      ensures !ok ==> graph == old(graph)
    {
      var cell := new TwoVertices(At(graph, e));
      if !cell.Value().CanReplace(u, v) {
        return false;
      }
      cell.Replace(u, v);
      graph := graph[e := cell.Value()];
      return true;
    }

    /** The body of FixTriangulation's loop for the popped edge (left,
        right): register the triangle, or flip and report the two edges to
        push. */
    method Legalise(e: Edge, outer: int) returns (status: Status, pushed: seq<Edge>)
      modifies this
      ensures Outcome(status, Step(graph, pushed)) == FixStep(old(graph), e, outer, Cfg())
      ensures |pushed| == 0 || |pushed| == 2
    {
      var left, right := e.v1, e.v2;
      var key := Canonical(left, right);
      var apexes := At(graph, key);
      if apexes.Size() == 0 {
        return Abort(EmptyApex), [];
      }
      var inner := apexes.Min();
      var ok;
      if CheckDelaunayCondition(geo, left, right, outer, inner) {
        ghost var g0 := graph;
        ok := InsertApexAt(Edge(right, outer), left);
        if !ok {
          return Abort(ApexOverflow), [];
        }
        ghost var g1 := graph;
        ok := InsertApexAt(Edge(left, outer), right);
        if !ok {
          return Abort(ApexOverflow), [];
        }
        ghost var g2 := graph;
        var l, r := left, right;
        if r < l {
          l, r := r, l;
        }
        ok := InsertApexAt(Edge(l, r), outer);
        if !ok {
          return Abort(ApexOverflow), [];
        }
        assert LegalStep(g0, left, right, outer) == Ok(graph);
        return Done, [];
      }
      ghost var g0 := graph;
      ok := ReplaceAt(Edge(right, outer), left, inner);
      if !ok {
        return Abort(ApexOverflow), [];
      }
      ok := ReplaceAt(Edge(left, outer), right, inner);
      if !ok {
        return Abort(ApexOverflow), [];
      }
      ok := ReplaceAt(Canonical(inner, left), right, outer);
      if !ok {
        return Abort(ApexOverflow), [];
      }
      ok := ReplaceAt(Canonical(inner, right), left, outer);
      if !ok {
        return Abort(ApexOverflow), [];
      }
      graph := graph - {key};
      assert FlipStep(g0, left, right, outer, inner, ReplaceApex) == Ok(graph);
      return Done, [Edge(left, inner), Edge(inner, right)];
    }

    /** The pushes after a flip: each edge goes into the next free slot,
        and the construction stops when the slots run out. */
    method PushEdges(size: nat, pushed: seq<Edge>) returns (ok: bool, size': nat)
      requires Valid() && size <= n && (|pushed| == 0 || |pushed| == 2)
      modifies recursionStack
      ensures ok <==> size + |pushed| <= n
      ensures ok ==> size' == size + |pushed| && recursionStack[..size'] == old(recursionStack[..size]) + pushed
      ensures size' <= n
    {
      size' := size;
      if pushed != [] {
        if size' >= n {
          return false, size';
        }
        recursionStack[size'] := pushed[0];
        size' := size' + 1;
        if size' >= n {
          return false, size';
        }
        recursionStack[size'] := pushed[1];
        size' := size' + 1;
        assert recursionStack[..size'] == old(recursionStack[..size]) + [pushed[0], pushed[1]];
      }
      return true, size';
    }

    /** One pass of FixTriangulation's loop over the worklist slots
        0..size-1: pop the top edge, legalise it, push what the flip pushes.
        The new store and worklist continue the same run of the loop. */
    method PopAndLegalise(size: nat, outer: int, ghost steps: nat) returns (status: Status, size': nat)
      requires Valid() && 0 < size <= n && steps > 0
      modifies this, recursionStack
      ensures size' <= n
      ensures Drain(Stepper(outer, Cfg()), old(graph), old(recursionStack[..size]), n, steps) ==
                if status == Done then Drain(Stepper(outer, Cfg()), graph, recursionStack[..size'], n, steps - 1)
                else Fail(status.why)
    {
      ghost var g0 := graph;
      var top := recursionStack[size - 1];
      size' := size - 1;
      ghost var rest := recursionStack[..size'];
      assert recursionStack[..size] == rest + [top];
      ghost var step := Stepper(outer, Cfg());
      DrainPop(step, g0, rest, top, n, steps);
      var st, pushed := Legalise(top, outer);
      if st.Abort? {
        return st, size';
      }
      assert step(g0, top) == Ok(Step(graph, pushed));
      var ok;
      ok, size' := PushEdges(size', pushed);
      if !ok {
        return Abort(StackOverflow), size';
      }
      LastInFirstOut(step, g0, rest, top, n, steps);
      return Done, size';
    }

    /** FixTriangulation(left, right, outer): legalise edges off the array
        worklist, last pushed first, until it is empty. A push past the last
        slot, or more than `fuel` iterations, stops the construction. */
    method FixTriangulation(left: int, right: int, outer: int) returns (status: Status)
      requires Valid() && n >= 1
      modifies this, recursionStack
      ensures Outcome(status, graph) == Fix(old(graph), Edge(left, right), outer, Cfg())
    {
      recursionStack[0] := Edge(left, right);
      var stackSize := 1;
      var steps := fuel;
      assert recursionStack[..stackSize] == [Edge(left, right)];
      while stackSize > 0
        invariant 0 <= stackSize <= n
        invariant Drain(Stepper(outer, Cfg()), graph, recursionStack[..stackSize], n, steps) ==
                  Fix(old(graph), Edge(left, right), outer, Cfg())
        decreases steps
      {
        if steps == 0 {
          return Abort(OutOfFuel);
        }
        status, stackSize := PopAndLegalise(stackSize, outer, steps);
        if status.Abort? {
          return;
        }
        steps := steps - 1;
      }
      return Done;
    }

    /** The first loop of AddPointToTriangulation: from i - 1 along the
        right links, legalise every front edge visible from i; stop at the
        first point whose right edge is hidden. */
    method WalkRight(i: int) returns (stop: int, status: Status)
      requires Valid() && 2 <= i < n && FrontOk(convexHull[..], i)
      modifies this, recursionStack
      ensures Outcome(status, Walked(graph, stop)) ==
              Walk(Rightward, Fixer(i, Cfg()), old(graph), convexHull[..], i - 1, i, geo, fuel)
    {
      ghost var g0 := graph;
      ghost var fix := Fixer(i, Cfg());
      stop := i - 1;
      var next := convexHull[stop].right;
      var steps := fuel;
      while RightVisible(geo, stop, next, i)
        invariant 0 <= stop < i && next == convexHull[stop].right
        invariant Walk(Rightward, fix, graph, convexHull[..], stop, i, geo, steps) ==
                  Walk(Rightward, fix, g0, convexHull[..], i - 1, i, geo, fuel)
        decreases steps
      {
        if steps == 0 {
          return stop, Abort(OutOfFuel);
        }
        status := FixTriangulation(stop, next, i);
        if status.Abort? {
          return;
        }
        stop := next;
        next := convexHull[stop].right;
        steps := steps - 1;
      }
      status := Done;
    }

    /** The second loop: from i - 1 along the left links, likewise. */
    method WalkLeft(i: int) returns (stop: int, status: Status)
      requires Valid() && 2 <= i < n && FrontOk(convexHull[..], i)
      modifies this, recursionStack
      ensures Outcome(status, Walked(graph, stop)) ==
              Walk(Leftward, Fixer(i, Cfg()), old(graph), convexHull[..], i - 1, i, geo, fuel)
    {
      ghost var g0 := graph;
      ghost var fix := Fixer(i, Cfg());
      stop := i - 1;
      var next := convexHull[stop].left;
      var steps := fuel;
      while LeftVisible(geo, stop, next, i)
        invariant 0 <= stop < i && next == convexHull[stop].left
        invariant Walk(Leftward, fix, graph, convexHull[..], stop, i, geo, steps) ==
                  Walk(Leftward, fix, g0, convexHull[..], i - 1, i, geo, fuel)
        decreases steps
      {
        if steps == 0 {
          return stop, Abort(OutOfFuel);
        }
        status := FixTriangulation(next, stop, i);
        if status.Abort? {
          return;
        }
        stop := next;
        next := convexHull[stop].left;
        steps := steps - 1;
      }
      status := Done;
    }

    /** AddPointToTriangulation(i): walk right from i - 1 while the front
        edges are visible from i, legalising each; then left likewise;
        then splice i between the two stops. */
    method AddPointToTriangulation(i: int) returns (status: Status)
      requires Valid() && 2 <= i < n && FrontOk(convexHull[..], i)
      modifies this, convexHull, recursionStack
      ensures Outcome(status, State()) == AddPoint(old(State()), i, Cfg())
    {
      var rightStop, leftStop;
      rightStop, status := WalkRight(i);
      if status.Abort? {
        return;
      }
      convexHull[i] := ListNode(convexHull[i].left, rightStop);
      leftStop, status := WalkLeft(i);
      if status.Abort? {
        return;
      }
      convexHull[i] := ListNode(leftStop, convexHull[i].right);
      var r := convexHull[i].right;
      convexHull[r] := ListNode(i, convexHull[r].right);
      convexHull[leftStop] := ListNode(convexHull[leftStop].left, i);
    }

    /** The start of Build: 0 and 1 each other's neighbours on the front,
        and 2 the apex of the edge (0, 1). */
    method PlantSeed()
      requires Valid() && n >= 3 && graph == map[] && convexHull[..] == Unlinked(n)
      modifies this, convexHull
      ensures State() == Seed(n)
    {
      convexHull[0] := ListNode(1, 1);
      convexHull[1] := ListNode(0, 0);
      var ok := InsertApexAt(Edge(0, 1), 2);
      assert ok && State() == Seed(n);
    }

    /** Build on a fresh builder: with fewer than three points nothing
        happens; otherwise seed the front with 0 and 1 and the store with
        the triangle (0, 1, 2) seen from (0, 1), then add points 2..n-1.
        A finished build satisfies the store invariant. */
    method Build() returns (status: Status)
      requires Valid() && graph == map[] && convexHull[..] == Unlinked(n)
      modifies this, convexHull, recursionStack
      ensures Outcome(status, State()) == Sweep.Build(n, geo, fuel)
      ensures status == Done ==> GraphInv(graph, n - 1)
    {
      if n < 3 {
        return Done;
      }
      PlantSeed();
      var i := 2;
      while i < n
        invariant 2 <= i <= n && FrontOk(convexHull[..], i)
        invariant AddPoints(State(), i, Cfg()) == Sweep.Build(n, geo, fuel)
      {
        AddPointsStep(State(), i, Cfg());
        status := AddPointToTriangulation(i);
        if status.Abort? {
          return;
        }
        i := i + 1;
      }
      BuildKeepsInv(n, geo, fuel);
      return Done;
    }

    /** Create: construct a builder over n sorted points and build. */
    static method Create(n: nat, geo: Oracle, fuel: nat) returns (builder: DelaunayBuilder, status: Status)
      ensures fresh(builder) && builder.n == n && builder.geo == geo && builder.fuel == fuel
      ensures Outcome(status, builder.State()) == Sweep.Build(n, geo, fuel)
      ensures status == Done ==> GraphInv(builder.graph, n - 1)
    {
      builder := new DelaunayBuilder(n, geo, fuel);
      status := builder.Build();
    }
  }
}
