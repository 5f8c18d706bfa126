/** The sweep of DelaunayBuilder::Build as a function of the state: points
    are added in index order (the order of increasing x after sorting); each
    new point walks the hull front right and left from its predecessor,
    legalising every visible edge, and is then spliced into the front. */
module Sweep {
  import opened Models
  import opened Outcomes
  import opened Geometry
  import opened Legalize

  /** The hull front while point i is being added: every point inserted so
      far links left and right to another point inserted so far. */
  predicate FrontOk(front: seq<ListNode>, i: int) {
    0 <= i <= |front| &&
    forall j :: 0 <= j < i ==>
      0 <= front[j].left < i && 0 <= front[j].right < i && front[j].left != j && front[j].right != j
  }

  /** The direction of a walk along the front. */
  datatype Side = Rightward | Leftward

  /** The link a walk follows. */
  function Neighbour(front: seq<ListNode>, h: int, side: Side): int
    requires 0 <= h < |front|
  {
    match side
    case Rightward => front[h].right
    case Leftward => front[h].left
  }

  /** Whether the front edge from h to its neighbour is visible from i. */
  predicate Visible(geo: Oracle, side: Side, h: int, next: int, i: int) {
    match side
    case Rightward => RightVisible(geo, h, next, i)
    case Leftward => LeftVisible(geo, h, next, i)
  }

  /** The edge handed to FixTriangulation: (h, next) on the way right,
      (next, h) on the way left, so that `left` is always the left end. */
  function WalkEdge(side: Side, h: int, next: int): (e: Edge)
    ensures {e.v1, e.v2} == {h, next}
    ensures side == Rightward ==> e.v1 == h
    ensures side == Leftward ==> e.v2 == h
  {
    match side
    case Rightward => Edge(h, next)
    case Leftward => Edge(next, h)
  }

  /** The point reached after k steps along the front from h. */
  function Follow(front: seq<ListNode>, i: int, side: Side, h: int, k: nat): (p: int)
    requires FrontOk(front, i) && 0 <= h < i
    ensures 0 <= p < i
    decreases k
  {
    if k == 0 then h else Follow(front, i, side, Neighbour(front, h, side), k - 1)
  }

  /** A walk's result: the store after legalising and where the walk stopped. */
  datatype Walked = Walked(graph: Graph, stop: int)

  /** FixTriangulation(left, right, i) as a function of the store: the
      worklist loop started from the single edge (left, right). */
  function Fix(g: Graph, e: Edge, i: int, cfg: Config): Result<Graph> {
    FixRun(g, [e], i, cfg, cfg.fuel)
  }

  /** One of the two loops of AddPointToTriangulation: while the front edge
      from h is visible from i, legalise it with `fix` and step on. `fuel`
      bounds the number of steps. The loop is stated for any legalisation,
      so that facts about the walk itself do not depend on what `fix` does. */
  function Walk(side: Side, fix: (Graph, Edge) -> Result<Graph>, g: Graph, front: seq<ListNode>, h: int, i: int, geo: Oracle, fuel: nat): (r: Result<Walked>)
    requires FrontOk(front, i) && 0 <= h < i
    ensures r.Ok? ==> 0 <= r.value.stop < i
    ensures r.Ok? ==> !Visible(geo, side, r.value.stop, Neighbour(front, r.value.stop, side), i)
    decreases fuel
  {
    var next := Neighbour(front, h, side);
    if !Visible(geo, side, h, next, i) then Ok(Walked(g, h))
    else if fuel == 0 then Fail(OutOfFuel)
    else
      var g' :- fix(g, WalkEdge(side, h, next));
      Walk(side, fix, g', front, next, i, geo, fuel - 1)
  }

  /** The legalisation the builder's walks use while adding point i. */
  function Fixer(i: int, cfg: Config): (Graph, Edge) -> Result<Graph> {
    (g, e) => Fix(g, e, i, cfg)
  }

  /** The builder's state: the store and the hull front. */
  datatype SweepState = SweepState(graph: Graph, front: seq<ListNode>)

  /** AddPointToTriangulation(i): walk right, set i's right link, walk left,
      set i's left link, then splice i between the two stops. */
  function AddPoint(s: SweepState, i: int, cfg: Config): (r: Result<SweepState>)
    requires 2 <= i < |s.front| && FrontOk(s.front, i)
    ensures r.Ok? ==> |r.value.front| == |s.front| && FrontOk(r.value.front, i + 1)
    ensures r.Ok? ==> forall j :: i < j < |s.front| ==> r.value.front[j] == s.front[j]
  {
    var right :- Walk(Rightward, Fixer(i, cfg), s.graph, s.front, i - 1, i, cfg.geo, cfg.fuel);
    var f1 := s.front[i := ListNode(s.front[i].left, right.stop)];
    var left :- Walk(Leftward, Fixer(i, cfg), right.graph, f1, i - 1, i, cfg.geo, cfg.fuel);
    var f2 := f1[i := ListNode(left.stop, f1[i].right)];
    var f3 := f2[f2[i].right := ListNode(i, f2[f2[i].right].right)];
    var f4 := f3[left.stop := ListNode(f3[left.stop].left, i)];
    Ok(SweepState(left.graph, f4))
  }

  /** A way of inserting point i once the points below it are in: it is
      defined whenever the front links points below i among themselves, and
      on success it keeps the front's length and links point i too. */
  ghost predicate Inserts(add: (SweepState, int) --> Result<SweepState>) {
    forall s: SweepState, i: int {:trigger add.requires(s, i)} :: 2 <= i < |s.front| && FrontOk(s.front, i) ==>
      add.requires(s, i) && Extends(s, i, add(s, i))
  }

  /** A successful insertion of point i keeps the front's length and links
      point i too. */
  predicate Extends(s: SweepState, i: int, r: Result<SweepState>) {
    r.Ok? ==> |r.value.front| == |s.front| && FrontOk(r.value.front, i + 1)
  }

  /** One insertion of an `Inserts` way of inserting, at point i. */
  function InsertOne(add: (SweepState, int) --> Result<SweepState>, s: SweepState, i: int): (r: Result<SweepState>)
    requires Inserts(add)
    requires 2 <= i < |s.front| && FrontOk(s.front, i)
    ensures r == add(s, i) && Extends(s, i, r)
  {
    assert add.requires(s, i);
    add(s, i)
  }

  /** The insertion loop of Build, from point i to the last one, for any
      way `add` of inserting one point. */
  function Insertions(add: (SweepState, int) --> Result<SweepState>, s: SweepState, i: int): (r: Result<SweepState>)
    requires Inserts(add)
    requires 2 <= i <= |s.front| && FrontOk(s.front, i)
    ensures r.Ok? ==> |r.value.front| == |s.front| && FrontOk(r.value.front, |s.front|)
    decreases |s.front| - i
  {
    if i == |s.front| then Ok(s)
    else
      var s' :- InsertOne(add, s, i);
      Insertions(add, s', i + 1)
  }

  /** AddPointToTriangulation as a value. */
  function Adder(cfg: Config): (SweepState, int) --> Result<SweepState> {
    (s: SweepState, i: int) requires 2 <= i < |s.front| && FrontOk(s.front, i) => AddPoint(s, i, cfg)
  }

  lemma AdderInserts(cfg: Config)
    ensures Inserts(Adder(cfg))
  {
  }

  /** The insertion loop of Build, from point i to the last one. */
  function AddPoints(s: SweepState, i: int, cfg: Config): (r: Result<SweepState>)
    requires 2 <= i <= |s.front| && FrontOk(s.front, i)
    ensures r.Ok? ==> |r.value.front| == |s.front| && FrontOk(r.value.front, |s.front|)
  {
    AdderInserts(cfg);
    Insertions(Adder(cfg), s, i)
  }

  /** `convex_hull_` after resize: n value-initialised nodes. */
  function Unlinked(n: nat): (front: seq<ListNode>)
    ensures |front| == n && forall j :: 0 <= j < n ==> front[j] == ListNode(0, 0)
  {
    seq(n, _ => ListNode(0, 0))
  }

  /** The seed of Build: 0 and 1 are each other's left and right neighbour,
      and the store holds the one key (0, 1) with apex set {2}. */
  function Seed(n: nat): (s: SweepState)
    requires n >= 3
    ensures FrontOk(s.front, 2) && |s.front| == n
    ensures GraphInv(s.graph, 2)
    ensures s.graph.Keys == {Edge(0, 1)} && s.graph[Edge(0, 1)].Members() == {2}
  {
    SweepState(map[Edge(0, 1) := Empty().Insert(2)], Unlinked(n)[0 := ListNode(1, 1)][1 := ListNode(0, 0)])
  }

  /** The configuration of the current builder: one worklist slot per point
      and the Replace flip. */
  function BuilderConfig(n: nat, geo: Oracle, fuel: nat): Config {
    Config(geo, n, fuel, ReplaceApex)
  }

  /** Build over n sorted points: fewer than three leave the store empty. */
  function Build(n: nat, geo: Oracle, fuel: nat): (r: Result<SweepState>)
    ensures n < 3 ==> r.Ok? && r.value.graph == map[]
    ensures r.Ok? ==> |r.value.front| == n
    ensures n >= 3 && r.Ok? ==> FrontOk(r.value.front, n)
  {
    if n < 3 then Ok(SweepState(map[], Unlinked(n)))
    else AddPoints(Seed(n), 2, BuilderConfig(n, geo, fuel))
  }

  // ---------------------------------------------------------------------
  // The store invariant along the sweep

  /** A walk whose every legalisation keeps the store invariant keeps it. */
  lemma {:induction false} WalkKeepsInv(side: Side, fix: (Graph, Edge) -> Result<Graph>, g: Graph, front: seq<ListNode>, h: int, i: int, geo: Oracle, fuel: nat)
    requires forall g0, e :: GraphInv(g0, i) && EdgeOk(e, i) && fix(g0, e).Ok? ==> GraphInv(fix(g0, e).value, i)
    requires FrontOk(front, i) && 0 <= h < i
    requires GraphInv(g, i)
    ensures Walk(side, fix, g, front, h, i, geo, fuel).Ok? ==> GraphInv(Walk(side, fix, g, front, h, i, geo, fuel).value.graph, i)
    decreases fuel
  {
    var next := Neighbour(front, h, side);
    if Visible(geo, side, h, next, i) && fuel > 0 {
      assert EdgeOk(WalkEdge(side, h, next), i);
      var g' := fix(g, WalkEdge(side, h, next));
      if g'.Ok? {
        WalkKeepsInv(side, fix, g'.value, front, next, i, geo, fuel - 1);
      }
    }
  }

  /** FixTriangulation keeps the store invariant. */
  lemma FixerKeepsInv(i: int, cfg: Config)
    ensures forall g0, e :: GraphInv(g0, i) && EdgeOk(e, i) && Fixer(i, cfg)(g0, e).Ok? ==> GraphInv(Fixer(i, cfg)(g0, e).value, i)
  {
    forall g0, e | GraphInv(g0, i) && EdgeOk(e, i)
      ensures Fix(g0, e, i, cfg).Ok? ==> GraphInv(Fix(g0, e, i, cfg).value, i)
    {
      FixRunKeepsInv(g0, [e], i, cfg, cfg.fuel);
    }
  }

  /** Adding point i keeps the store invariant, now with i as the bound. */
  lemma AddPointKeepsInv(s: SweepState, i: int, cfg: Config)
    requires 2 <= i < |s.front| && FrontOk(s.front, i)
    requires GraphInv(s.graph, i)
    ensures AddPoint(s, i, cfg).Ok? ==> GraphInv(AddPoint(s, i, cfg).value.graph, i)
  {
    FixerKeepsInv(i, cfg);
    var fix := Fixer(i, cfg);
    WalkKeepsInv(Rightward, fix, s.graph, s.front, i - 1, i, cfg.geo, cfg.fuel);
    var right := Walk(Rightward, fix, s.graph, s.front, i - 1, i, cfg.geo, cfg.fuel);
    if right.Ok? {
      var f1 := s.front[i := ListNode(s.front[i].left, right.value.stop)];
      WalkKeepsInv(Leftward, fix, right.value.graph, f1, i - 1, i, cfg.geo, cfg.fuel);
    }
  }

  /** One round of the insertion loop: a failed insertion stops it with
      that failure, a finished one carries on from the next point. */
  lemma AddPointsStep(s: SweepState, i: int, cfg: Config)
    requires 2 <= i < |s.front| && FrontOk(s.front, i)
    ensures AddPoint(s, i, cfg).Fail? ==> AddPoints(s, i, cfg) == Fail(AddPoint(s, i, cfg).failure)
    ensures AddPoint(s, i, cfg).Ok? ==>
      AddPoints(s, i, cfg) == AddPoints(AddPoint(s, i, cfg).value, i + 1, cfg)
  {
    AdderInserts(cfg);
    assert AddPoints(s, i, cfg) == Insertions(Adder(cfg), s, i);
  }

  /** A successful insertion of point i leaves a store satisfying the
      invariant for point i. */
  predicate KeepsGraphInv(i: int, r: Result<SweepState>) {
    r.Ok? ==> GraphInv(r.value.graph, i)
  }

  /** `add` keeps the store invariant at every point it inserts. */
  ghost predicate InsertsKeepingInv(add: (SweepState, int) --> Result<SweepState>) {
    forall s: SweepState, i: int {:trigger add.requires(s, i)} ::
      2 <= i < |s.front| && FrontOk(s.front, i) && GraphInv(s.graph, i) && add.requires(s, i) ==>
        KeepsGraphInv(i, add(s, i))
  }

  /** The insertion loop inserts point i, then carries on from i + 1. */
  lemma InsertionsUnfold(add: (SweepState, int) --> Result<SweepState>, s: SweepState, i: int)
    requires Inserts(add)
    requires 2 <= i < |s.front| && FrontOk(s.front, i)
    ensures var r := InsertOne(add, s, i);
      Insertions(add, s, i) == if r.Ok? then Insertions(add, r.value, i + 1) else Fail(r.failure)
  {
  }

  /** One insertion keeps the store invariant, also for the next point. */
  lemma InsertOneKeepsInv(add: (SweepState, int) --> Result<SweepState>, s: SweepState, i: int)
    requires Inserts(add) && InsertsKeepingInv(add)
    requires 2 <= i < |s.front| && FrontOk(s.front, i)
    requires GraphInv(s.graph, i)
    ensures InsertOne(add, s, i).Ok? ==>
      GraphInv(InsertOne(add, s, i).value.graph, i) && GraphInv(InsertOne(add, s, i).value.graph, i + 1)
  {
    if InsertOne(add, s, i).Ok? {
      assert KeepsGraphInv(i, add(s, i));
      GraphInvMonotone(InsertOne(add, s, i).value.graph, i, i + 1);
    }
  }

  /** The insertion loop keeps the store invariant whenever each insertion
      does: a store mentioning points up to i before point i goes in
      mentions points up to the last one once the loop is done. The proof
      follows the loop itself, one insertion per iteration. */
  lemma InsertionsKeepInv(add: (SweepState, int) --> Result<SweepState>, s: SweepState, i: int)
    requires Inserts(add) && InsertsKeepingInv(add)
    requires 2 <= i < |s.front| && FrontOk(s.front, i)
    requires GraphInv(s.graph, i)
    ensures KeepsGraphInv(|s.front| - 1, Insertions(add, s, i))
  {
    var cur, j := s, i;
    while j < |s.front|
      invariant i <= j <= |s.front| && |cur.front| == |s.front| && FrontOk(cur.front, j)
      invariant GraphInv(cur.graph, if j < |s.front| then j else j - 1)
      invariant Insertions(add, s, i) == Insertions(add, cur, j)
      decreases |s.front| - j
    {
      InsertionsUnfold(add, cur, j);
      InsertOneKeepsInv(add, cur, j);
      var r := InsertOne(add, cur, j);
      if r.Fail? {
        return;
      }
      cur, j := r.value, j + 1;
    }
    assert Insertions(add, cur, j) == Ok(cur);
  }

  /** The insertion loop keeps the store invariant: afterwards every key
      joins two distinct points and every apex set holds one or two points
      other than its key's endpoints. */
  lemma AddPointsKeepsInv(s: SweepState, i: int, cfg: Config)
    requires 2 <= i < |s.front| && FrontOk(s.front, i)
    requires GraphInv(s.graph, i)
    ensures AddPoints(s, i, cfg).Ok? ==> GraphInv(AddPoints(s, i, cfg).value.graph, |s.front| - 1)
  {
    var add := Adder(cfg);
    AdderInserts(cfg);
    forall s: SweepState, i: int | 2 <= i < |s.front| && FrontOk(s.front, i) && GraphInv(s.graph, i) && add.requires(s, i)
      ensures KeepsGraphInv(i, add(s, i))
    {
      AddPointKeepsInv(s, i, cfg);
    }
    InsertionsKeepInv(add, s, i);
  }

  /** A finished Build leaves a store whose keys are canonical pairs of
      distinct points below n, each with one or two apexes below n other
      than its endpoints. */
  lemma BuildKeepsInv(n: nat, geo: Oracle, fuel: nat)
    requires Build(n, geo, fuel).Ok?
    ensures GraphInv(Build(n, geo, fuel).value.graph, n - 1)
  {
    if n >= 3 {
      AddPointsKeepsInv(Seed(n), 2, BuilderConfig(n, geo, fuel));
    }
  }

  // ---------------------------------------------------------------------
  // Where the walks stop, and the splice

  /** Every front edge passed in the first k steps from h is visible from i. */
  predicate VisibleFor(front: seq<ListNode>, i: int, side: Side, h: int, k: nat, geo: Oracle)
    requires FrontOk(front, i) && 0 <= h < i
  {
    forall j: nat :: j < k ==> Visible(geo, side, Follow(front, i, side, h, j), Follow(front, i, side, h, j + 1), i)
  }

  /** A walk that finishes stops at the first point, going along the front
      from h, whose outgoing edge is not visible from i; every edge passed
      on the way was visible. */
  lemma {:induction false} WalkStopsAtFirstHidden(side: Side, fix: (Graph, Edge) -> Result<Graph>, g: Graph, front: seq<ListNode>, h: int, i: int, geo: Oracle, fuel: nat)
    requires FrontOk(front, i) && 0 <= h < i
    requires Walk(side, fix, g, front, h, i, geo, fuel).Ok?
    ensures exists k: nat :: k <= fuel && Walk(side, fix, g, front, h, i, geo, fuel).value.stop == Follow(front, i, side, h, k) &&
              VisibleFor(front, i, side, h, k, geo)
    decreases fuel
  {
    var next := Neighbour(front, h, side);
    var stop := Walk(side, fix, g, front, h, i, geo, fuel).value.stop;
    if !Visible(geo, side, h, next, i) {
      assert stop == Follow(front, i, side, h, 0) && VisibleFor(front, i, side, h, 0, geo);
    } else {
      var g' := fix(g, WalkEdge(side, h, next)).value;
      assert Walk(side, fix, g, front, h, i, geo, fuel) == Walk(side, fix, g', front, next, i, geo, fuel - 1);
      WalkStopsAtFirstHidden(side, fix, g', front, next, i, geo, fuel - 1);
      var k: nat :| k <= fuel - 1 && Walk(side, fix, g', front, next, i, geo, fuel - 1).value.stop == Follow(front, i, side, next, k) &&
        VisibleFor(front, i, side, next, k, geo);
      assert stop == Follow(front, i, side, h, k + 1);
      forall j: nat | j < k + 1
        ensures Visible(geo, side, Follow(front, i, side, h, j), Follow(front, i, side, h, j + 1), i)
      {
        if j > 0 {
          assert Follow(front, i, side, h, j) == Follow(front, i, side, next, j - 1);
          assert Follow(front, i, side, h, j + 1) == Follow(front, i, side, next, j);
        } else {
          assert Follow(front, i, side, h, 1) == next;
        }
      }
      assert VisibleFor(front, i, side, h, k + 1, geo);
    }
  }

  /** The walks read the front only below i. */
  lemma {:induction false} WalkReadsBelow(side: Side, fix: (Graph, Edge) -> Result<Graph>, g: Graph, front: seq<ListNode>, front': seq<ListNode>, h: int, i: int, geo: Oracle, fuel: nat)
    requires FrontOk(front, i) && 0 <= h < i
    requires |front'| == |front| && forall j :: 0 <= j < i ==> front'[j] == front[j]
    ensures FrontOk(front', i)
    ensures Walk(side, fix, g, front', h, i, geo, fuel) == Walk(side, fix, g, front, h, i, geo, fuel)
    decreases fuel
  {
    assert FrontOk(front', i);
    var next := Neighbour(front, h, side);
    if Visible(geo, side, h, next, i) && fuel > 0 {
      var g' := fix(g, WalkEdge(side, h, next));
      if g'.Ok? {
        WalkReadsBelow(side, fix, g'.value, front, front', next, i, geo, fuel - 1);
      }
    }
  }

  /** AddPointToTriangulation links i to the stops of its two walks and
      splices it in: afterwards i's right neighbour has i as its left
      neighbour and i's left neighbour has i as its right neighbour; the
      stops' outer links and every other node are as before. */
  lemma AddPointSplice(s: SweepState, i: int, cfg: Config)
    requires 2 <= i < |s.front| && FrontOk(s.front, i)
    requires AddPoint(s, i, cfg).Ok?
    ensures var f := AddPoint(s, i, cfg).value.front;
      var right := Walk(Rightward, Fixer(i, cfg), s.graph, s.front, i - 1, i, cfg.geo, cfg.fuel);
      && right.Ok? && f[i].right == right.value.stop
      && Walk(Leftward, Fixer(i, cfg), right.value.graph, s.front, i - 1, i, cfg.geo, cfg.fuel).Ok?
      && f[i].left == Walk(Leftward, Fixer(i, cfg), right.value.graph, s.front, i - 1, i, cfg.geo, cfg.fuel).value.stop
      && 0 <= f[i].left < i && 0 <= f[i].right < i
      && f[f[i].right].left == i && f[f[i].left].right == i
      && (f[i].left != f[i].right ==>
            f[f[i].right].right == s.front[f[i].right].right && f[f[i].left].left == s.front[f[i].left].left)
      && forall j :: 0 <= j < |f| && j != i && j != f[i].left && j != f[i].right ==> f[j] == s.front[j]
  {
    var right := Walk(Rightward, Fixer(i, cfg), s.graph, s.front, i - 1, i, cfg.geo, cfg.fuel).value;
    var f1 := s.front[i := ListNode(s.front[i].left, right.stop)];
    WalkReadsBelow(Leftward, Fixer(i, cfg), right.graph, s.front, f1, i - 1, i, cfg.geo, cfg.fuel);
  }

  // ---------------------------------------------------------------------
  // Three points

  /** Three points, two of them legalised against the third: keys (0, 1),
      (0, 2) and (1, 2), each with the remaining point as its only apex. */
  function Triangle(): Graph {
    map[Edge(0, 1) := Slots(2, Absent), Edge(0, 2) := Slots(1, Absent), Edge(1, 2) := Slots(0, Absent)]
  }

  /** The triangle satisfies the store invariant with 2 as the bound. */
  lemma TriangleInv()
    ensures GraphInv(Triangle(), 2)
    ensures Triangle().Keys == {Edge(0, 1), Edge(0, 2), Edge(1, 2)}
  {
    var t := Triangle();
    assert t[Edge(0, 1)].Members() == {2};
    assert t[Edge(0, 2)].Members() == {1};
    assert t[Edge(1, 2)].Members() == {0};
  }

  /** The entries the Simple test reads: three keys, each apex set holding
      the third point alone, so that GetMin and GetMax agree on it. */
  lemma TriangleEntries()
    ensures var t := Triangle();
      && |t| == 3
      && Edge(0, 1) in t && t[Edge(0, 1)].Size() > 0 && t[Edge(0, 1)].Min() == 2 && t[Edge(0, 1)].Max() == 2
      && Edge(0, 2) in t && t[Edge(0, 2)].Size() > 0 && t[Edge(0, 2)].Min() == 1 && t[Edge(0, 2)].Max() == 1
      && Edge(1, 2) in t && t[Edge(1, 2)].Size() > 0 && t[Edge(1, 2)].Min() == 0 && t[Edge(1, 2)].Max() == 0
  {
    TriangleInv();
    assert |Triangle().Keys| == |{Edge(0, 1), Edge(0, 2), Edge(1, 2)}| == 3;
  }

  /** Legalising the seed edge, in either orientation, against point 2
      registers the triangle: the apex across it is 2 itself, so the legal
      branch runs and nothing is pushed. */
  lemma SeedEdgeCloses(e: Edge, cfg: Config)
    requires e == Edge(0, 1) || e == Edge(1, 0)
    requires cfg.fuel >= 1
    ensures Fix(Seed(3).graph, e, 2, cfg) == Ok(Triangle())
  {
    var g := Seed(3).graph;
    SeedEdgeStep(e, cfg);
    assert Stepper(2, cfg)(g, e) == Ok(Step(Triangle(), []));
    assert [e][..0] + [] == [];
    DrainUnfold(Stepper(2, cfg), g, [e], cfg.cap, cfg.fuel);
    assert Process(Stepper(2, cfg), g, e, [], cfg.cap, cfg.fuel) == Drain(Stepper(2, cfg), Triangle(), [], cfg.cap, cfg.fuel - 1);
  }

  /** The one worklist iteration on the seed edge: the apex across it is 2,
      so the legal branch registers the triangle. */
  lemma SeedEdgeStep(e: Edge, cfg: Config)
    requires e == Edge(0, 1) || e == Edge(1, 0)
    ensures FixStep(Seed(3).graph, e, 2, cfg) == Ok(Step(Triangle(), []))
  {
    var g := Seed(3).graph;
    assert g == map[Edge(0, 1) := Slots(2, Absent)];
    assert Canonical(e.v1, e.v2) == Edge(0, 1);
    assert At(g, Edge(0, 1)) == Slots(2, Absent);
    assert Inner(g, e.v1, e.v2) == Ok(2);
    SeedTriangleStep(e.v1, e.v2);
  }

  /** The legal branch on the seed store, for either orientation of (0, 1). */
  lemma SeedTriangleStep(l: int, r: int)
    requires (l == 0 && r == 1) || (l == 1 && r == 0)
    ensures LegalStep(map[Edge(0, 1) := Slots(2, Absent)], l, r, 2) == Ok(Triangle())
  {
    var g := map[Edge(0, 1) := Slots(2, Absent)];
    var g1 := g[Edge(r, 2) := Slots(l, Absent)];
    assert InsertAt(g, Edge(r, 2), l) == Ok(g1);
    var g2 := g1[Edge(l, 2) := Slots(r, Absent)];
    assert InsertAt(g1, Edge(l, 2), r) == Ok(g2);
    assert g2[Edge(0, 1) := Slots(2, Absent)] == g2;
    assert InsertAt(g2, Canonical(l, r), 2) == Ok(g2);
    assert g2 == Triangle();
  }

  /** The three-point case (the Simple test): with a non-degenerate triple,
      whichever walk sees the seed edge, Build yields exactly the keys
      (0, 1) -> {2}, (0, 2) -> {1}, (1, 2) -> {0}. Antisymmetry of the cross
      product in its first two points holds for the computed values too
      when each product is rounded to a double before the subtraction
      (no fused multiply-add contraction). */
  lemma ThreePoints(geo: Oracle, fuel: nat)
    requires geo.cross(0, 1, 2) == -geo.cross(1, 0, 2)
    requires geo.cross(1, 0, 2) >= Eps || geo.cross(1, 0, 2) <= -Eps
    requires fuel >= 1
    ensures Build(3, geo, fuel).Ok? && Build(3, geo, fuel).value.graph == Triangle()
  {
    var cfg := BuilderConfig(3, geo, fuel);
    var s := Seed(3);
    var fix := Fixer(2, cfg);
    SeedEdgeCloses(Edge(1, 0), cfg);
    SeedEdgeCloses(Edge(0, 1), cfg);
    var right := Walk(Rightward, fix, s.graph, s.front, 1, 2, geo, fuel);
    if geo.cross(1, 0, 2) >= Eps {
      assert fix(s.graph, Edge(1, 0)) == Ok(Triangle());
      assert s.front[1].right == 0 && s.front[0].right == 1;
      assert Walk(Rightward, fix, Triangle(), s.front, 0, 2, geo, fuel - 1) == Ok(Walked(Triangle(), 0));
      assert right == Ok(Walked(Triangle(), 0));
      var f1 := s.front[2 := ListNode(s.front[2].left, 0)];
      assert f1[1].left == 0;
      assert Walk(Leftward, fix, Triangle(), f1, 1, 2, geo, fuel) == Ok(Walked(Triangle(), 1));
    } else {
      assert right == Ok(Walked(s.graph, 1));
      assert fix(s.graph, Edge(0, 1)) == Ok(Triangle());
      var f1 := s.front[2 := ListNode(s.front[2].left, 1)];
      assert f1[1].left == 0 && f1[0].left == 1;
      assert Walk(Leftward, fix, Triangle(), f1, 0, 2, geo, fuel - 1) == Ok(Walked(Triangle(), 0));
      assert Walk(Leftward, fix, s.graph, f1, 1, 2, geo, fuel) == Ok(Walked(Triangle(), 0));
    }
    assert AddPoint(s, 2, cfg).value.graph == Triangle();
  }

  /** The assertions of the Simple test on the built store: three keys,
      with GetMin and GetMax of (0, 1), (0, 2) and (1, 2) equal to 2, 1
      and 0 respectively. */
  lemma SimpleTest(geo: Oracle, fuel: nat)
    requires geo.cross(0, 1, 2) == -geo.cross(1, 0, 2)
    requires geo.cross(1, 0, 2) >= Eps || geo.cross(1, 0, 2) <= -Eps
    requires fuel >= 1
    ensures Build(3, geo, fuel).Ok?
    ensures var t := Build(3, geo, fuel).value.graph;
      && |t| == 3
      && Edge(0, 1) in t && t[Edge(0, 1)].Size() > 0 && t[Edge(0, 1)].Min() == 2 && t[Edge(0, 1)].Max() == 2
      && Edge(0, 2) in t && t[Edge(0, 2)].Size() > 0 && t[Edge(0, 2)].Min() == 1 && t[Edge(0, 2)].Max() == 1
      && Edge(1, 2) in t && t[Edge(1, 2)].Size() > 0 && t[Edge(1, 2)].Min() == 0 && t[Edge(1, 2)].Max() == 0
  {
    ThreePoints(geo, fuel);
    TriangleEntries();
  }
}
