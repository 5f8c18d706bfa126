/** The combinatorial types of src/models.hpp: edge keys, the two-slot apex
    set, hull-front nodes and the edge -> apex-set store. */
module Models {

  /** An edge key: an ordered pair of point indices, compared componentwise.
      The store is keyed by the canonical (smaller index first) form, which
      callers compute; the type itself does not normalise. */
  datatype Edge = Edge(v1: int, v2: int)

  /** The key of the undirected edge {a, b}: `Edge{min(a, b), max(a, b)}`. */
  function Canonical(a: int, b: int): (e: Edge)
    ensures e.v1 <= e.v2
    ensures (e.v1 == a && e.v2 == b) || (e.v1 == b && e.v2 == a)
  {
    if a <= b then Edge(a, b) else Edge(b, a)
  }

  /** Both orientations of an edge share one key. */
  lemma CanonicalSymmetric(a: int, b: int)
    ensures Canonical(a, b) == Canonical(b, a)
  {
  }

  /** Edge equality is componentwise: a reversed pair is a different key
      unless both indices coincide. */
  lemma ReversedKeyDiffers(a: int, b: int)
    ensures Edge(a, b) == Edge(b, a) <==> a == b
  {
  }

  /** The sentinel of an empty slot. */
  const Absent: int := -1

  /** The value held by a TwoVertices: two slots, `Absent` marking an empty one. */
  datatype Slots = Slots(v1: int, v2: int) {

    /** The apexes held: the values of the occupied slots. */
    function Members(): set<int> {
      (if v1 != Absent then {v1} else {}) + (if v2 != Absent then {v2} else {})
    }

    /** The number of occupied slots. */
    function Size(): (n: nat)
      ensures n <= 2
      ensures n == 0 <==> Members() == {}
      ensures n == 2 <==> v1 != Absent && v2 != Absent
      ensures |Members()| <= n
    {
      (if v1 != Absent then 1 else 0) + (if v2 != Absent then 1 else 0)
    }

    /** No member is held twice. */
    predicate Distinct() {
      v1 == Absent || v1 != v2
    }

    /** The assertion of Insert holds: `v` is already held or a slot is free. */
    predicate CanInsert(v: int) {
      v1 == v || v2 == v || Size() < 2
    }

    /** Insert: nothing changes if `v` is held; otherwise `v` goes into the
        first free slot. */
    function Insert(v: int): (r: Slots)
      requires CanInsert(v)
      ensures v1 == v || v2 == v ==> r == this
      ensures v != Absent ==> r.Members() == Members() + {v}
      ensures v != Absent && v !in Members() ==> r.Size() == Size() + 1
      ensures v != Absent && Distinct() ==> r.Distinct()
      ensures v1 != v && v2 != v && v1 != Absent ==> r.v1 == v1
      ensures v1 != v && v2 != v && v2 != Absent ==> r.v2 == v2
    {
      if v1 == v || v2 == v then this
      else if v1 == Absent then Slots(v, v2)
      else Slots(v1, v)
    }

    /** Erase: the slot holding `v` (the first one, if both do) becomes free;
        nothing changes when `v` is not held. */
    function Erase(v: int): (r: Slots)
      ensures v !in Members() ==> r == this
      ensures r.Members() <= Members()
      ensures Distinct() ==> r.Members() == Members() - {v}
      ensures Distinct() ==> r.Distinct()
      ensures v in Members() ==> r.Size() == Size() - 1
    {
      if v1 == v then
        var r := Slots(Absent, v2);
        assert r.Members() == (if v2 != Absent then {v2} else {});
        assert Distinct() ==> Members() - {v} == r.Members();
        r
      else if v2 == v then
        var r := Slots(v1, Absent);
        assert r.Members() == (if v1 != Absent then {v1} else {});
        assert Members() - {v} == r.Members();
        r
      else this
    }

    /** The assertion Replace can reach holds: `u` is held, or `v` can be inserted. */
    predicate CanReplace(u: int, v: int) {
      v1 == u || v2 == u || CanInsert(v)
    }

    /** Replace: the slot holding `u` gets `v`, the other slot untouched;
        when no slot holds `u` this is Insert(v). */
    function Replace(u: int, v: int): (r: Slots)
      requires CanReplace(u, v)
      ensures v1 == u ==> r.v1 == v && r.v2 == v2
      ensures v1 != u && v2 == u ==> r.v1 == v1 && r.v2 == v
      ensures v1 != u && v2 != u ==> r == Insert(v)
      ensures v != Absent ==> v in r.Members()
      ensures v != Absent ==> r.Members() <= Members() + {v}
      ensures u != Absent && v != Absent && u in Members() && Distinct() ==>
                r.Members() == Members() - {u} + {v}
      ensures Distinct() && v != Absent && (v == u || v !in Members()) ==> r.Distinct()
    {
      if v1 == u then Slots(v, v2)
      else if v2 == u then Slots(v1, v)
      else Insert(v)
    }

    /** Min: the smaller member when both slots are held, else the sole member. */
    function Min(): (m: int)
      requires Size() > 0
      ensures m in Members()
      ensures forall x :: x in Members() ==> m <= x
    {
      if v1 != Absent && v2 != Absent then (if v1 <= v2 then v1 else v2)
      else if v1 != Absent then v1
      else v2
    }

    /** Max: `std::max` of the two slots, which is the largest member when
        no member lies below the sentinel. */
    function Max(): (m: int)
      requires Size() > 0
      ensures v1 >= Absent && v2 >= Absent ==> m in Members()
      ensures forall x :: x in Members() ==> x <= m
    {
      if v1 >= v2 then v1 else v2
    }
  }

  /** `TwoVertices()`: both slots empty. */
  function Empty(): (s: Slots)
    ensures s.Size() == 0 && s.Members() == {} && s.Distinct()
  {
    Slots(Absent, Absent)
  }

  /** With distinct slots the size is the number of members. */
  lemma SizeCountsMembers(s: Slots)
    requires s.Distinct()
    ensures s.Size() == |s.Members()|
  {
    if s.v1 != Absent && s.v2 != Absent {
      assert s.Members() == {s.v1, s.v2};
    }
  }

  /** Inserting a member twice is the same as inserting it once. */
  lemma InsertIdempotent(s: Slots, v: int)
    requires s.CanInsert(v)
    ensures s.Insert(v).CanInsert(v) && s.Insert(v).Insert(v) == s.Insert(v)
  {
  }

  /** Min and Max agree exactly when one member is held, and bracket the members. */
  lemma MinMaxOrdered(s: Slots)
    requires s.Size() > 0 && s.v1 >= Absent && s.v2 >= Absent
    ensures s.Min() <= s.Max()
    ensures s.Min() == s.Max() <==> |s.Members()| == 1
  {
    if s.v1 != Absent && s.v2 != Absent && s.v1 != s.v2 {
      assert s.Members() == {s.v1, s.v2};
      assert s.Min() in s.Members() && s.Max() in s.Members();
    } else if s.v1 != Absent && s.v2 != Absent {
      assert s.Members() == {s.v1};
    }
  }

  /** The legacy flip's erase-then-insert and Replace agree whenever the new
      apex is not already held: both go through in the same cases and leave
      the same members. */
  lemma EraseThenInsertIsReplace(s: Slots, u: int, v: int)
    requires v != Absent && v !in s.Members()
    ensures s.Erase(u).CanInsert(v) <==> s.CanReplace(u, v)
    ensures s.CanReplace(u, v) ==> s.Erase(u).Insert(v).Members() == s.Replace(u, v).Members()
  {
  }

  /** A TwoVertices, updated in place by the builder through `graph_[e]`. */
  class TwoVertices {
    var v1: int
    var v2: int

    /** The value currently held. */
    function Value(): Slots
      reads this
    {
      Slots(v1, v2)
    }

    /** `TwoVertices(v1, v2)`; the default arguments give Empty(). */
    constructor (s: Slots)
      ensures Value() == s
    {
      v1, v2 := s.v1, s.v2;
    }

    method Insert(v: int)
      requires Value().CanInsert(v)
      modifies this
      ensures Value() == old(Value()).Insert(v)
    {
      if v1 == v || v2 == v {
        return;
      }
      if v1 == Absent {
        v1 := v;
      } else {
        v2 := v;
      }
    }

    method Erase(v: int)
      modifies this
      ensures Value() == old(Value()).Erase(v)
    {
      if v1 == v {
        v1 := Absent;
      } else if v2 == v {
        v2 := Absent;
      }
    }

    method Replace(u: int, v: int)
      requires Value().CanReplace(u, v)
      modifies this
      ensures Value() == old(Value()).Replace(u, v)
    {
      if v1 == u {
        v1 := v;
      } else if v2 == u {
        v2 := v;
      } else {
        Insert(v);
      }
    }
  }

  /** A hull-front node: the indices of a point's left and right neighbours. */
  datatype ListNode = ListNode(left: int, right: int)

  /** The triangulation store: edge key -> apex set. */
  type Graph = map<Edge, Slots>

  /** `graph_[e]` read as a value: a missing key reads as a default-constructed,
      empty apex set. */
  function At(g: Graph, e: Edge): (s: Slots)
    ensures e in g ==> s == g[e]
    ensures e !in g ==> s.Size() == 0
  {
    if e in g then g[e] else Empty()
  }
}
