/** The edge-flip legalisation of FixTriangulation (and of the legacy
    `restructure`) as a function of the store and the worklist. */
module Legalize {
  import opened Models
  import opened Outcomes
  import opened Geometry

  /** How a flip rewrites a stale apex: with TwoVertices::Replace (current
      source) or with erase followed by insert (legacy main.cpp). */
  datatype FlipStyle = ReplaceApex | EraseThenInsert

  /** The fixed parameters of a construction: the geometry oracle, the number
      of worklist slots (one per point), the iteration bound of every loop,
      and the flip style. */
  datatype Config = Config(geo: Oracle, cap: nat, fuel: nat, style: FlipStyle)

  /** `graph_[e].Insert(v)`. */
  function InsertAt(g: Graph, e: Edge, v: int): Result<Graph> {
    if At(g, e).CanInsert(v) then Ok(g[e := At(g, e).Insert(v)]) else Fail(ApexOverflow)
  }

  /** `graph_[e].Replace(u, v)`, or the legacy `erase(u)` then `insert(v)`. */
  function SwapAt(g: Graph, e: Edge, u: int, v: int, style: FlipStyle): Result<Graph> {
    match style
    case ReplaceApex =>
      if At(g, e).CanReplace(u, v) then Ok(g[e := At(g, e).Replace(u, v)]) else Fail(ApexOverflow)
    case EraseThenInsert =>
      var s := At(g, e).Erase(u);
      if s.CanInsert(v) then Ok(g[e := s.Insert(v)]) else Fail(ApexOverflow)
  }

  /** The legal branch: register the triangle (left, right, outer). */
  function LegalStep(g: Graph, left: int, right: int, outer: int): Result<Graph> {
    var g1 :- InsertAt(g, Edge(right, outer), left);
    var g2 :- InsertAt(g1, Edge(left, outer), right);
    InsertAt(g2, Canonical(left, right), outer)
  }

  /** The flip branch: replace the diagonal (left, right) of the quadrilateral
      (left, outer, right, inner) by (outer, inner). */
  function FlipStep(g: Graph, left: int, right: int, outer: int, inner: int, style: FlipStyle): Result<Graph> {
    var g1 :- SwapAt(g, Edge(right, outer), left, inner, style);
    var g2 :- SwapAt(g1, Edge(left, outer), right, inner, style);
    var g3 :- SwapAt(g2, Canonical(inner, left), right, outer, style);
    var g4 :- SwapAt(g3, Canonical(inner, right), left, outer, style);
    Ok(g4 - {Canonical(left, right)})
  }

  /** The store after one popped edge, and the edges pushed for it. */
  datatype Step = Step(graph: Graph, pushed: seq<Edge>)

  /** The apex opposite `outer` across (left, right): the minimum of the
      canonical entry, which must exist and be non-empty. */
  function Inner(g: Graph, left: int, right: int): Result<int> {
    var s := At(g, Canonical(left, right));
    if s.Size() == 0 then Fail(EmptyApex) else Ok(s.Min())
  }

  /** One iteration of the worklist loop, for the popped edge e. */
  function FixStep(g: Graph, e: Edge, outer: int, cfg: Config): Result<Step> {
    var inner :- Inner(g, e.v1, e.v2);
    if CheckDelaunayCondition(cfg.geo, e.v1, e.v2, outer, inner) then
      var g' :- LegalStep(g, e.v1, e.v2, outer);
      Ok(Step(g', []))
    else
      var g' :- FlipStep(g, e.v1, e.v2, outer, inner, cfg.style);
      Ok(Step(g', [Edge(e.v1, inner), Edge(inner, e.v2)]))
  }

  /** The worklist loop, for any per-edge step: pop the last edge, process
      it, push what it pushes, until the worklist is empty. A push beyond
      `cap` slots, or more than `budget` iterations, stops the run. */
  function Drain(step: (Graph, Edge) -> Result<Step>, g: Graph, stack: seq<Edge>, cap: nat, budget: nat): Result<Graph>
    decreases budget, 1
  {
    if |stack| == 0 then Ok(g)
    else if budget == 0 then Fail(OutOfFuel)
    else DrainTop(step, g, stack, cap, budget)
  }

  /** Pop the last edge off a non-empty worklist and process it. */
  function DrainTop(step: (Graph, Edge) -> Result<Step>, g: Graph, stack: seq<Edge>, cap: nat, budget: nat): Result<Graph>
    requires |stack| > 0 && budget > 0
    decreases budget, 0, 2
  {
    Process(step, g, stack[|stack| - 1], stack[..|stack| - 1], cap, budget)
  }

  /** Process the popped edge `top`, push what the step pushes onto `rest`
      (unless that would exceed `cap` slots), and run the rest of the loop.
      The loop is split in three so that unfolding it twice never reaches
      the step itself. */
  function Process(step: (Graph, Edge) -> Result<Step>, g: Graph, top: Edge, rest: seq<Edge>, cap: nat, budget: nat): Result<Graph>
    requires budget > 0
    decreases budget, 0, 1
  {
    var s :- step(g, top);
    if |rest| + |s.pushed| > cap then Fail(StackOverflow)
    else Drain(step, s.graph, rest + s.pushed, cap, budget - 1)
  }

  /** A non-empty worklist with budget left processes its last edge. */
  lemma DrainUnfold(step: (Graph, Edge) -> Result<Step>, g: Graph, stack: seq<Edge>, cap: nat, budget: nat)
    requires |stack| > 0 && budget > 0
    ensures Drain(step, g, stack, cap, budget) == Process(step, g, stack[|stack| - 1], stack[..|stack| - 1], cap, budget)
  {
  }

  /** The step FixTriangulation's loop takes while `outer` is being inserted. */
  function Stepper(outer: int, cfg: Config): (Graph, Edge) -> Result<Step> {
    (h, e) => FixStep(h, e, outer, cfg)
  }

  /** FixTriangulation's loop while `outer` is being inserted. */
  function FixRun(g: Graph, stack: seq<Edge>, outer: int, cfg: Config, budget: nat): Result<Graph> {
    Drain(Stepper(outer, cfg), g, stack, cfg.cap, budget)
  }

  // ---------------------------------------------------------------------
  // The store invariant

  /** An apex set of edge e while `outer` is being inserted: non-empty, every
      member an index in 0..outer other than e's endpoints. */
  predicate ApexOk(s: Slots, e: Edge, outer: int) {
    s.Size() > 0 &&
    forall x :: x in s.Members() ==> 0 <= x <= outer && x != e.v1 && x != e.v2
  }

  /** Every key is canonical with distinct endpoints no larger than `outer`,
      and every apex set satisfies ApexOk. */
  predicate GraphInv(g: Graph, outer: int) {
    forall e :: e in g ==> 0 <= e.v1 < e.v2 <= outer && ApexOk(g[e], e, outer)
  }

  /** Worklist entries join two distinct points inserted before `outer`. */
  predicate WorkInv(stack: seq<Edge>, outer: int) {
    forall k :: 0 <= k < |stack| ==>
      0 <= stack[k].v1 < outer && 0 <= stack[k].v2 < outer && stack[k].v1 != stack[k].v2
  }

  /** A larger bound keeps the invariant. */
  lemma GraphInvMonotone(g: Graph, outer: int, outer': int)
    requires GraphInv(g, outer) && outer <= outer'
    ensures GraphInv(g, outer')
  {
  }

  lemma InsertAtKeepsInv(g: Graph, e: Edge, v: int, outer: int)
    requires GraphInv(g, outer)
    requires 0 <= e.v1 < e.v2 <= outer
    requires 0 <= v <= outer && v != e.v1 && v != e.v2
    ensures InsertAt(g, e, v).Ok? ==> GraphInv(InsertAt(g, e, v).value, outer)
  {
    var s := At(g, e);
    if s.CanInsert(v) {
      ApexOkAfterAdding(s, s.Insert(v), e, v, outer);
      UpdateKeepsInv(g, e, s.Insert(v), outer);
    }
  }

  /** A set holding v and no more than s and v is a valid apex set of e. */
  lemma ApexOkAfterAdding(s: Slots, s': Slots, e: Edge, v: int, outer: int)
    requires s.Size() > 0 ==> ApexOk(s, e, outer)
    requires 0 <= v <= outer && v != e.v1 && v != e.v2
    requires v in s'.Members() && s'.Members() <= s.Members() + {v}
    ensures ApexOk(s', e, outer)
  {
    forall x | x in s'.Members()
      ensures 0 <= x <= outer && x != e.v1 && x != e.v2
    {
      if x != v {
        assert x in s.Members();
      }
    }
  }

  /** Writing a valid apex set at a valid key keeps the invariant. */
  lemma UpdateKeepsInv(g: Graph, e: Edge, s: Slots, outer: int)
    requires GraphInv(g, outer)
    requires 0 <= e.v1 < e.v2 <= outer && ApexOk(s, e, outer)
    ensures GraphInv(g[e := s], outer)
  {
    var g' := g[e := s];
    forall k | k in g'
      ensures 0 <= k.v1 < k.v2 <= outer && ApexOk(g'[k], k, outer)
    {
      if k != e {
        assert g'[k] == g[k];
      }
    }
  }

  lemma SwapAtKeepsInv(g: Graph, e: Edge, u: int, v: int, style: FlipStyle, outer: int)
    requires GraphInv(g, outer)
    requires 0 <= e.v1 < e.v2 <= outer
    requires 0 <= v <= outer && v != e.v1 && v != e.v2
    ensures SwapAt(g, e, u, v, style).Ok? ==> GraphInv(SwapAt(g, e, u, v, style).value, outer)
  {
    if SwapAt(g, e, u, v, style).Ok? {
      SwapAtValue(g, e, u, v, style);
      var s' := Swapped(At(g, e), u, v, style);
      ApexOkAfterAdding(At(g, e), s', e, v, outer);
      UpdateKeepsInv(g, e, s', outer);
    }
  }

  /** Under the invariant, the apex found across a worklist edge is an index
      below or equal to `outer`, other than the edge's endpoints; so in the
      flip branch it is strictly below `outer`. This is why taking the
      minimum is safe: `outer` exceeds every previously inserted index. */
  lemma InnerInRange(g: Graph, left: int, right: int, outer: int)
    requires GraphInv(g, outer)
    requires 0 <= left < outer && 0 <= right < outer && left != right
    ensures Inner(g, left, right).Ok? ==>
              var inner := Inner(g, left, right).value;
              0 <= inner <= outer && inner != left && inner != right
  {
    var s := At(g, Canonical(left, right));
    if s.Size() > 0 {
      assert Canonical(left, right) in g;
      assert s.Min() in s.Members();
    }
  }

  lemma LegalStepKeepsInv(g: Graph, l: int, r: int, outer: int)
    requires GraphInv(g, outer)
    requires 0 <= l < outer && 0 <= r < outer && l != r
    ensures LegalStep(g, l, r, outer).Ok? ==> GraphInv(LegalStep(g, l, r, outer).value, outer)
  {
    InsertAtKeepsInv(g, Edge(r, outer), l, outer);
    var g1 := InsertAt(g, Edge(r, outer), l);
    if g1.Ok? {
      InsertAtKeepsInv(g1.value, Edge(l, outer), r, outer);
      var g2 := InsertAt(g1.value, Edge(l, outer), r);
      if g2.Ok? {
        InsertAtKeepsInv(g2.value, Canonical(l, r), outer, outer);
      }
    }
  }

  lemma FlipStepKeepsInv(g: Graph, l: int, r: int, outer: int, inner: int, style: FlipStyle)
    requires GraphInv(g, outer)
    requires 0 <= l < outer && 0 <= r < outer && l != r
    requires 0 <= inner < outer && inner != l && inner != r
    ensures FlipStep(g, l, r, outer, inner, style).Ok? ==> GraphInv(FlipStep(g, l, r, outer, inner, style).value, outer)
  {
    SwapAtKeepsInv(g, Edge(r, outer), l, inner, style, outer);
    var g1 := SwapAt(g, Edge(r, outer), l, inner, style);
    if g1.Ok? {
      SwapAtKeepsInv(g1.value, Edge(l, outer), r, inner, style, outer);
      var g2 := SwapAt(g1.value, Edge(l, outer), r, inner, style);
      if g2.Ok? {
        SwapAtKeepsInv(g2.value, Canonical(inner, l), r, outer, style, outer);
        var g3 := SwapAt(g2.value, Canonical(inner, l), r, outer, style);
        if g3.Ok? {
          SwapAtKeepsInv(g3.value, Canonical(inner, r), l, outer, style, outer);
          var g4 := SwapAt(g3.value, Canonical(inner, r), l, outer, style);
          if g4.Ok? {
            var g5 := g4.value - {Canonical(l, r)};
            assert forall k :: k in g5 ==> k in g4.value && g5[k] == g4.value[k];
          }
        }
      }
    }
  }

  /** One worklist iteration keeps the store invariant, and pushes only
      edges between distinct points inserted before `outer`. */
  lemma FixStepKeepsInv(g: Graph, e: Edge, outer: int, cfg: Config)
    requires GraphInv(g, outer)
    requires 0 <= e.v1 < outer && 0 <= e.v2 < outer && e.v1 != e.v2
    ensures FixStep(g, e, outer, cfg).Ok? ==>
              GraphInv(FixStep(g, e, outer, cfg).value.graph, outer) &&
              WorkInv(FixStep(g, e, outer, cfg).value.pushed, outer)
  {
    var inner := Inner(g, e.v1, e.v2);
    if inner.Ok? && FixStep(g, e, outer, cfg).Ok? {
      if CheckDelaunayCondition(cfg.geo, e.v1, e.v2, outer, inner.value) {
        LegalBranchKeepsInv(g, e, outer, cfg);
      } else {
        FlipBranchKeepsInv(g, e, outer, cfg);
      }
    }
  }

  lemma LegalBranchKeepsInv(g: Graph, e: Edge, outer: int, cfg: Config)
    requires GraphInv(g, outer)
    requires 0 <= e.v1 < outer && 0 <= e.v2 < outer && e.v1 != e.v2
    requires Inner(g, e.v1, e.v2).Ok?
    requires CheckDelaunayCondition(cfg.geo, e.v1, e.v2, outer, Inner(g, e.v1, e.v2).value)
    requires FixStep(g, e, outer, cfg).Ok?
    ensures GraphInv(FixStep(g, e, outer, cfg).value.graph, outer)
    ensures FixStep(g, e, outer, cfg).value.pushed == []
  {
    LegalStepKeepsInv(g, e.v1, e.v2, outer);
  }

  lemma FlipBranchKeepsInv(g: Graph, e: Edge, outer: int, cfg: Config)
    requires GraphInv(g, outer)
    requires 0 <= e.v1 < outer && 0 <= e.v2 < outer && e.v1 != e.v2
    requires Inner(g, e.v1, e.v2).Ok?
    requires !CheckDelaunayCondition(cfg.geo, e.v1, e.v2, outer, Inner(g, e.v1, e.v2).value)
    requires FixStep(g, e, outer, cfg).Ok?
    ensures GraphInv(FixStep(g, e, outer, cfg).value.graph, outer)
    ensures WorkInv(FixStep(g, e, outer, cfg).value.pushed, outer)
  {
    FlipPushes(g, e, outer, cfg);
    var inner := Inner(g, e.v1, e.v2).value;
    FlipStepKeepsInv(g, e.v1, e.v2, outer, inner, cfg.style);
    WorkInvPair(Edge(e.v1, inner), Edge(inner, e.v2), outer);
  }

  lemma WorkInvPair(a: Edge, b: Edge, outer: int)
    requires EdgeOk(a, outer) && EdgeOk(b, outer)
    ensures WorkInv([a, b], outer)
  {
  }

  /** Worklist entries that join two distinct points inserted before `outer`. */
  predicate EdgeOk(e: Edge, outer: int) {
    0 <= e.v1 < outer && 0 <= e.v2 < outer && e.v1 != e.v2
  }

  lemma WorkInvConcat(stack: seq<Edge>, pushed: seq<Edge>, outer: int)
    requires |stack| > 0 && WorkInv(stack, outer) && WorkInv(pushed, outer)
    ensures WorkInv(stack[..|stack| - 1] + pushed, outer)
  {
    var next := stack[..|stack| - 1] + pushed;
    forall k | 0 <= k < |next|
      ensures 0 <= next[k].v1 < outer && 0 <= next[k].v2 < outer && next[k].v1 != next[k].v2
    {
      if k < |stack| - 1 {
        assert next[k] == stack[k];
      } else {
        assert next[k] == pushed[k - (|stack| - 1)];
      }
    }
  }

  /** A worklist loop whose every step keeps the store invariant and pushes
      only valid edges keeps the invariant. */
  lemma {:induction false} DrainKeepsInv(step: (Graph, Edge) -> Result<Step>, g: Graph, stack: seq<Edge>, cap: nat, budget: nat, outer: int)
    requires forall h, e :: GraphInv(h, outer) && EdgeOk(e, outer) && step(h, e).Ok? ==>
               GraphInv(step(h, e).value.graph, outer) && WorkInv(step(h, e).value.pushed, outer)
    requires GraphInv(g, outer) && WorkInv(stack, outer)
    ensures Drain(step, g, stack, cap, budget).Ok? ==> GraphInv(Drain(step, g, stack, cap, budget).value, outer)
    decreases budget
  {
    if |stack| > 0 && budget > 0 {
      var top := stack[|stack| - 1];
      assert EdgeOk(top, outer);
      DrainUnfold(step, g, stack, cap, budget);
      var s := step(g, top);
      if s.Ok? && |stack| - 1 + |s.value.pushed| <= cap {
        WorkInvConcat(stack, s.value.pushed, outer);
        DrainKeepsInv(step, s.value.graph, stack[..|stack| - 1] + s.value.pushed, cap, budget - 1, outer);
      }
    }
  }

  /** The whole cascade keeps the store invariant: every key it writes is
      canonical with v1 < v2 <= outer, and every apex set stays non-empty
      with members in 0..outer other than its edge's endpoints. */
  lemma FixRunKeepsInv(g: Graph, stack: seq<Edge>, outer: int, cfg: Config, budget: nat)
    requires GraphInv(g, outer) && WorkInv(stack, outer)
    ensures FixRun(g, stack, outer, cfg, budget).Ok? ==> GraphInv(FixRun(g, stack, outer, cfg, budget).value, outer)
  {
    var step := Stepper(outer, cfg);
    forall h, e | GraphInv(h, outer) && EdgeOk(e, outer) && step(h, e).Ok?
      ensures GraphInv(step(h, e).value.graph, outer) && WorkInv(step(h, e).value.pushed, outer)
    {
      FixStepKeepsInv(h, e, outer, cfg);
    }
    DrainKeepsInv(step, g, stack, cfg.cap, budget, outer);
  }

  /** The legal branch registers the triangle (left, right, outer): `left`
      becomes an apex of (right, outer), `right` of (left, outer) and `outer`
      of the canonical (left, right); existing apexes stay, no other key
      changes and nothing is pushed. */
  lemma LegalStepEffect(g: Graph, e: Edge, outer: int, cfg: Config)
    requires 0 <= e.v1 < outer && 0 <= e.v2 < outer && e.v1 != e.v2
    requires Inner(g, e.v1, e.v2).Ok?
    requires CheckDelaunayCondition(cfg.geo, e.v1, e.v2, outer, Inner(g, e.v1, e.v2).value)
    requires FixStep(g, e, outer, cfg).Ok?
    ensures var step := FixStep(g, e, outer, cfg).value;
      var l, r := e.v1, e.v2;
      && step.pushed == []
      && l in At(step.graph, Edge(r, outer)).Members()
      && r in At(step.graph, Edge(l, outer)).Members()
      && outer in At(step.graph, Canonical(l, r)).Members()
      && At(g, Edge(r, outer)).Members() <= At(step.graph, Edge(r, outer)).Members()
      && At(g, Edge(l, outer)).Members() <= At(step.graph, Edge(l, outer)).Members()
      && At(g, Canonical(l, r)).Members() <= At(step.graph, Canonical(l, r)).Members()
      && step.graph.Keys == g.Keys + {Edge(r, outer), Edge(l, outer), Canonical(l, r)}
      && forall k :: k in g && k != Edge(r, outer) && k != Edge(l, outer) && k != Canonical(l, r) ==>
           step.graph[k] == g[k]
  {
    var l, r := e.v1, e.v2;
    var k1, k2, k3 := Edge(r, outer), Edge(l, outer), Canonical(l, r);
    LegalBranchValue(g, e, outer, cfg);
    ThreeUpdates(g, k1, At(g, k1).Insert(l), k2, At(g, k2).Insert(r), k3, At(g, k3).Insert(outer));
  }

  /** The legal branch that succeeds is three insertions, each into the
      entry as it was before the step, and pushes nothing. */
  lemma LegalBranchValue(g: Graph, e: Edge, outer: int, cfg: Config)
    requires 0 <= e.v1 < outer && 0 <= e.v2 < outer && e.v1 != e.v2
    requires Inner(g, e.v1, e.v2).Ok?
    requires CheckDelaunayCondition(cfg.geo, e.v1, e.v2, outer, Inner(g, e.v1, e.v2).value)
    requires FixStep(g, e, outer, cfg).Ok?
    ensures var l, r := e.v1, e.v2;
      var k1, k2, k3 := Edge(r, outer), Edge(l, outer), Canonical(l, r);
      && k1 != k2 && k1 != k3 && k2 != k3
      && At(g, k1).CanInsert(l) && At(g, k2).CanInsert(r) && At(g, k3).CanInsert(outer)
      && FixStep(g, e, outer, cfg).value ==
           Step(g[k1 := At(g, k1).Insert(l)][k2 := At(g, k2).Insert(r)][k3 := At(g, k3).Insert(outer)], [])
  {
    var l, r := e.v1, e.v2;
    var k1, k2, k3 := Edge(r, outer), Edge(l, outer), Canonical(l, r);
    assert FixStep(g, e, outer, cfg).value == Step(LegalStep(g, l, r, outer).value, []);
    var g1 := InsertAt(g, k1, l).value;
    var g2 := InsertAt(g1, k2, r).value;
    assert At(g1, k2) == At(g, k2);
    assert At(g2, k3) == At(g, k3);
  }

  /** Three updates at distinct keys: each holds its new value, the key set
      grows by the three keys and every other key is as before. */
  lemma ThreeUpdates(g: Graph, k1: Edge, s1: Slots, k2: Edge, s2: Slots, k3: Edge, s3: Slots)
    requires k1 != k2 && k1 != k3 && k2 != k3
    ensures var g' := g[k1 := s1][k2 := s2][k3 := s3];
      && g'[k1] == s1 && g'[k2] == s2 && g'[k3] == s3
      && g'.Keys == g.Keys + {k1, k2, k3}
      && forall k :: k in g && k != k1 && k != k2 && k != k3 ==> g'[k] == g[k]
  {
  }

  /** The five keys a flip touches are pairwise distinct. */
  lemma FlipKeysDistinct(l: int, r: int, outer: int, inner: int)
    requires 0 <= l < outer && 0 <= r < outer && l != r
    requires 0 <= inner < outer && inner != l && inner != r
    ensures Edge(r, outer) != Edge(l, outer)
    ensures Canonical(inner, l).v2 < outer && Canonical(inner, r).v2 < outer && Canonical(l, r).v2 < outer
    ensures Canonical(inner, l) != Canonical(inner, r)
    ensures Canonical(l, r) != Canonical(inner, l) && Canonical(l, r) != Canonical(inner, r)
  {
  }

  /** Whether swapping `u` for `v` in `s` passes the assertion of
      TwoVertices: through Replace, or through the legacy erase and insert. */
  predicate CanSwap(s: Slots, u: int, v: int, style: FlipStyle) {
    match style
    case ReplaceApex => s.CanReplace(u, v)
    case EraseThenInsert => s.Erase(u).CanInsert(v)
  }

  /** The apex set a swap of `u` for `v` leaves, in either style: `v` is held,
      nothing outside the old members and `v` is, and a held `u` gives way to
      a new `v`. */
  function Swapped(s: Slots, u: int, v: int, style: FlipStyle): (r: Slots)
    requires CanSwap(s, u, v, style)
    ensures v != Absent ==> v in r.Members() && r.Members() <= s.Members() + {v}
    ensures u != Absent && v != Absent && u in s.Members() && v !in s.Members() && s.Distinct() ==>
              r.Members() == s.Members() - {u} + {v}
  {
    match style
    case ReplaceApex => s.Replace(u, v)
    case EraseThenInsert => s.Erase(u).Insert(v)
  }

  /** A swap that succeeds writes the swapped set at its key. */
  lemma SwapAtValue(g: Graph, e: Edge, u: int, v: int, style: FlipStyle)
    requires SwapAt(g, e, u, v, style).Ok?
    ensures CanSwap(At(g, e), u, v, style)
    ensures SwapAt(g, e, u, v, style).value == g[e := Swapped(At(g, e), u, v, style)]
  {
  }

  /** A flip that succeeds is four rewrites, each of the entry as it was
      before the flip, followed by one deletion. */
  lemma FlipStepValue(g: Graph, l: int, r: int, outer: int, inner: int, style: FlipStyle)
    requires 0 <= l < outer && 0 <= r < outer && l != r
    requires 0 <= inner < outer && inner != l && inner != r
    requires FlipStep(g, l, r, outer, inner, style).Ok?
    ensures CanSwap(At(g, Edge(r, outer)), l, inner, style) && CanSwap(At(g, Edge(l, outer)), r, inner, style)
    ensures CanSwap(At(g, Canonical(inner, l)), r, outer, style) && CanSwap(At(g, Canonical(inner, r)), l, outer, style)
    ensures FlipStep(g, l, r, outer, inner, style).value ==
              g[Edge(r, outer) := Swapped(At(g, Edge(r, outer)), l, inner, style)]
               [Edge(l, outer) := Swapped(At(g, Edge(l, outer)), r, inner, style)]
               [Canonical(inner, l) := Swapped(At(g, Canonical(inner, l)), r, outer, style)]
               [Canonical(inner, r) := Swapped(At(g, Canonical(inner, r)), l, outer, style)]
              - {Canonical(l, r)}
  {
    FlipKeysDistinct(l, r, outer, inner);
    var k1, k2, k3, k4 := Edge(r, outer), Edge(l, outer), Canonical(inner, l), Canonical(inner, r);
    SwapAtValue(g, k1, l, inner, style);
    var g1 := SwapAt(g, k1, l, inner, style).value;
    SwapAtValue(g1, k2, r, inner, style);
    var g2 := SwapAt(g1, k2, r, inner, style).value;
    SwapAtValue(g2, k3, r, outer, style);
    var g3 := SwapAt(g2, k3, r, outer, style).value;
    SwapAtValue(g3, k4, l, outer, style);
    assert At(g1, k2) == At(g, k2);
    assert At(g2, k3) == At(g, k3);
    assert At(g3, k4) == At(g, k4);
  }

  /** Four updates at distinct keys and the deletion of a fifth: each
      updated key holds its new value, the fifth is gone, and every other
      key is as before. */
  lemma UpdatesThenDelete(g: Graph, k1: Edge, s1: Slots, k2: Edge, s2: Slots, k3: Edge, s3: Slots, k4: Edge, s4: Slots, k5: Edge)
    requires k1 != k2 && k1 != k3 && k1 != k4 && k1 != k5
    requires k2 != k3 && k2 != k4 && k2 != k5
    requires k3 != k4 && k3 != k5 && k4 != k5
    ensures var g' := g[k1 := s1][k2 := s2][k3 := s3][k4 := s4] - {k5};
      && k1 in g' && g'[k1] == s1 && k2 in g' && g'[k2] == s2
      && k3 in g' && g'[k3] == s3 && k4 in g' && g'[k4] == s4
      && k5 !in g'
      && forall k :: k in g && k !in {k1, k2, k3, k4, k5} ==> k in g' && g'[k] == g[k]
  {
  }

  /** The flip rewrites exactly its four sides and drops the old diagonal:
      in (right, outer) the apex `left` is swapped for `inner`, in (left,
      outer) `right` for `inner`, in canonical (inner, left) `right` for
      `outer`, in canonical (inner, right) `left` for `outer`; the canonical
      (left, right) key is removed and every other key is unchanged. */
  lemma FlipStepEffect(g: Graph, l: int, r: int, outer: int, inner: int, style: FlipStyle)
    requires 0 <= l < outer && 0 <= r < outer && l != r
    requires 0 <= inner < outer && inner != l && inner != r
    requires FlipStep(g, l, r, outer, inner, style).Ok?
    ensures var g' := FlipStep(g, l, r, outer, inner, style).value;
      && CanSwap(At(g, Edge(r, outer)), l, inner, style) && Edge(r, outer) in g'
      && g'[Edge(r, outer)] == Swapped(At(g, Edge(r, outer)), l, inner, style)
      && CanSwap(At(g, Edge(l, outer)), r, inner, style) && Edge(l, outer) in g'
      && g'[Edge(l, outer)] == Swapped(At(g, Edge(l, outer)), r, inner, style)
      && CanSwap(At(g, Canonical(inner, l)), r, outer, style) && Canonical(inner, l) in g'
      && g'[Canonical(inner, l)] == Swapped(At(g, Canonical(inner, l)), r, outer, style)
      && CanSwap(At(g, Canonical(inner, r)), l, outer, style) && Canonical(inner, r) in g'
      && g'[Canonical(inner, r)] == Swapped(At(g, Canonical(inner, r)), l, outer, style)
      && Canonical(l, r) !in g'
      && forall k :: k in g && k !in {Edge(r, outer), Edge(l, outer), Canonical(inner, l), Canonical(inner, r), Canonical(l, r)} ==>
           k in g' && g'[k] == g[k]
  {
    FlipKeysDistinct(l, r, outer, inner);
    FlipStepValue(g, l, r, outer, inner, style);
    UpdatesThenDelete(g, Edge(r, outer), Swapped(At(g, Edge(r, outer)), l, inner, style),
      Edge(l, outer), Swapped(At(g, Edge(l, outer)), r, inner, style),
      Canonical(inner, l), Swapped(At(g, Canonical(inner, l)), r, outer, style),
      Canonical(inner, r), Swapped(At(g, Canonical(inner, r)), l, outer, style),
      Canonical(l, r));
  }

  /** Across a worklist edge, a flip pushes (left, inner) then (inner,
      right), so (inner, right) is examined next. */
  lemma FlipPushes(g: Graph, e: Edge, outer: int, cfg: Config)
    requires GraphInv(g, outer)
    requires 0 <= e.v1 < outer && 0 <= e.v2 < outer && e.v1 != e.v2
    requires Inner(g, e.v1, e.v2).Ok?
    requires !CheckDelaunayCondition(cfg.geo, e.v1, e.v2, outer, Inner(g, e.v1, e.v2).value)
    requires FixStep(g, e, outer, cfg).Ok?
    ensures var inner := Inner(g, e.v1, e.v2).value;
      && 0 <= inner < outer && inner != e.v1 && inner != e.v2
      && FlipStep(g, e.v1, e.v2, outer, inner, cfg.style).Ok?
      && FixStep(g, e, outer, cfg).value ==
           Step(FlipStep(g, e.v1, e.v2, outer, inner, cfg.style).value, [Edge(e.v1, inner), Edge(inner, e.v2)])
  {
    InnerInRange(g, e.v1, e.v2, outer);
  }

  /** A run that finished, or failed for a reason other than fuel, gives the
      same answer with any larger iteration bound: the bound only cuts off
      runs that have not finished. */
  lemma {:induction false} DrainFuelMonotone(step: (Graph, Edge) -> Result<Step>, g: Graph, stack: seq<Edge>, cap: nat, budget: nat, budget': nat)
    requires budget <= budget'
    requires Drain(step, g, stack, cap, budget) != Fail(OutOfFuel)
    ensures Drain(step, g, stack, cap, budget') == Drain(step, g, stack, cap, budget)
    decreases budget
  {
    if |stack| > 0 && budget > 0 {
      DrainUnfold(step, g, stack, cap, budget);
      DrainUnfold(step, g, stack, cap, budget');
      var s := step(g, stack[|stack| - 1]);
      if s.Ok? && |stack| - 1 + |s.value.pushed| <= cap {
        DrainFuelMonotone(step, s.value.graph, stack[..|stack| - 1] + s.value.pushed, cap, budget - 1, budget' - 1);
      }
    }
  }

  /** One iteration of the worklist loop, for a worklist split into the
      edges below the top and the top. */
  lemma DrainPop(step: (Graph, Edge) -> Result<Step>, g: Graph, rest: seq<Edge>, top: Edge, cap: nat, budget: nat)
    requires budget > 0
    ensures step(g, top).Fail? ==> Drain(step, g, rest + [top], cap, budget) == Fail(step(g, top).failure)
    ensures step(g, top).Ok? && |rest| + |step(g, top).value.pushed| > cap ==>
              Drain(step, g, rest + [top], cap, budget) == Fail(StackOverflow)
  {
    assert (rest + [top])[..|rest + [top]| - 1] == rest;
    DrainUnfold(step, g, rest + [top], cap, budget);
  }

  /** With an empty worklist the loop stops at once and changes nothing. */
  lemma EmptyWorklistStops(step: (Graph, Edge) -> Result<Step>, g: Graph, cap: nat, budget: nat)
    ensures Drain(step, g, [], cap, budget) == Ok(g)
  {
  }

  /** The last pushed edge is processed first (LIFO): running a worklist is
      processing its top, then running the rest with what that pushed. */
  lemma LastInFirstOut(step: (Graph, Edge) -> Result<Step>, g: Graph, rest: seq<Edge>, top: Edge, cap: nat, budget: nat)
    requires budget > 0
    requires step(g, top).Ok?
    requires |rest| + |step(g, top).value.pushed| <= cap
    ensures Drain(step, g, rest + [top], cap, budget) ==
              Drain(step, step(g, top).value.graph, rest + step(g, top).value.pushed, cap, budget - 1)
  {
    assert (rest + [top])[..|rest + [top]| - 1] == rest;
    DrainUnfold(step, g, rest + [top], cap, budget);
  }
}
