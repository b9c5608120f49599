/**
 The largest product of arc weights over the simple paths between two nodes.
 `Best` is defined by what it means (an upper bound that is attained, or 0 when there is no path);
 the lemmas give the recurrence a depth-first search follows.
 */
module BestPath {
  import opened Walks
  import opened Sorting

  function Max(x: real, y: real): real {
    if x < y then y else x
  }

  /** A simple path from `a` to `b` outside `avoid` whose first step goes to a node of `first`. */
  ghost predicate PathVia(g: Arcs, a: Node, b: Node, avoid: set<Node>, first: set<Node>, p: seq<Node>) {
    PathAvoiding(g, a, b, avoid, p) && |p| >= 2 && p[1] in first
  }

  ghost predicate IsBest(g: Arcs, w: (Node, Node) -> real, a: Node, b: Node, avoid: set<Node>, r: real) {
    && (forall p :: PathAvoiding(g, a, b, avoid, p) ==> Product(w, p) <= r)
    && (r == 0.0 || exists p :: PathAvoiding(g, a, b, avoid, p) && Product(w, p) == r)
  }

  ghost predicate IsBestVia(g: Arcs, w: (Node, Node) -> real, a: Node, b: Node, avoid: set<Node>, first: set<Node>, r: real) {
    && (forall p :: PathVia(g, a, b, avoid, first, p) ==> Product(w, p) <= r)
    && (r == 0.0 || exists p :: PathVia(g, a, b, avoid, first, p) && Product(w, p) == r)
  }

  lemma BestIsUnique(g: Arcs, w: (Node, Node) -> real, a: Node, b: Node, avoid: set<Node>, r: real, s: real)
    requires ProperWeights(w) && IsBest(g, w, a, b, avoid, r) && IsBest(g, w, a, b, avoid, s)
    ensures r == s
  {
    forall p { ProductBounds(w, p); }
  }

  // ---------- the recurrence, as facts about the relations ----------

  lemma BestAtTarget(g: Arcs, w: (Node, Node) -> real, a: Node, avoid: set<Node>)
    requires a !in avoid
    ensures IsBest(g, w, a, a, avoid, 1.0)
  {
    assert PathAvoiding(g, a, a, avoid, [a]);
    forall p | PathAvoiding(g, a, a, avoid, p)
      ensures |p| == 1
    {
    }
  }

  lemma BestElsewhere(g: Arcs, w: (Node, Node) -> real, a: Node, b: Node, avoid: set<Node>, first: set<Node>, r: real)
    requires a != b && forall n :: HasArc(g, a, n) ==> n in first
    requires IsBestVia(g, w, a, b, avoid, first, r)
    ensures IsBest(g, w, a, b, avoid, r)
  {
    forall p | PathAvoiding(g, a, b, avoid, p)
      ensures PathVia(g, a, b, avoid, first, p)
    {
      PathTail(g, a, b, avoid, p);
    }
  }

  /** Paths through `n` are `a` followed by a path from `n` that also avoids `a`. */
  lemma BestViaStep(g: Arcs, w: (Node, Node) -> real, a: Node, n: Node, b: Node, avoid: set<Node>, first: set<Node>, r: real, s: real)
    requires ProperWeights(w) && a != b && a !in avoid && HasArc(g, a, n)
    requires IsBestVia(g, w, a, b, avoid, first, r) && IsBest(g, w, n, b, avoid + {a}, s)
    ensures IsBestVia(g, w, a, b, avoid, first + {n}, Max(r, w(a, n) * s))
  {
    hide Product, PathAvoiding, WalkBetween, IsWalk, Distinct;
    var via := Max(r, w(a, n) * s);
    forall p | PathVia(g, a, b, avoid, first + {n}, p)
      ensures Product(w, p) <= via
    {
      if p[1] in first {
        assert PathVia(g, a, b, avoid, first, p);
      } else {
        ThroughNeighbour(g, w, a, b, avoid, p, s);
      }
    }
    if via == r {
      if r != 0.0 {
        var p :| PathVia(g, a, b, avoid, first, p) && Product(w, p) == r;
        assert PathVia(g, a, b, avoid, first + {n}, p);
      }
    } else if s != 0.0 {
      var q :| PathAvoiding(g, n, b, avoid + {a}, q) && Product(w, q) == s;
      PrependNeighbour(g, w, a, n, b, avoid, q);
      assert PathVia(g, a, b, avoid, first + {n}, [a] + q);
    }
  }

  lemma {:induction false} ThroughNeighbour(g: Arcs, w: (Node, Node) -> real, a: Node, b: Node, avoid: set<Node>, p: seq<Node>, s: real)
    requires ProperWeights(w) && a != b && PathAvoiding(g, a, b, avoid, p) && |p| >= 2
    requires forall q :: PathAvoiding(g, p[1], b, avoid + {a}, q) ==> Product(w, q) <= s
    ensures Product(w, p) <= w(a, p[1]) * s
  {
    PathTail(g, a, b, avoid, p);
    MulMonotone(w(a, p[1]), Product(w, p[1..]), s);
  }

  lemma {:induction false} PrependNeighbour(g: Arcs, w: (Node, Node) -> real, a: Node, n: Node, b: Node, avoid: set<Node>, q: seq<Node>)
    requires HasArc(g, a, n) && a !in avoid && PathAvoiding(g, n, b, avoid + {a}, q)
    ensures PathVia(g, a, b, avoid, {n}, [a] + q) && Product(w, [a] + q) == w(a, n) * Product(w, q)
  {
    PathCons(g, a, n, b, avoid, q);
    assert ([a] + q)[1..] == q;
  }

  // ---------- the optimum exists ----------

  ghost function Sources(g: Arcs): set<Node> {
    set e | e in g :: e.0
  }

  ghost function Successors(g: Arcs, a: Node): set<Node> {
    set e | e in g && e.0 == a :: e.1
  }

  lemma SuccessorsAreArcs(g: Arcs, a: Node)
    ensures forall n :: n in Successors(g, a) <==> HasArc(g, a, n)
  {
    forall n | HasArc(g, a, n)
      ensures n in Successors(g, a)
    {
      assert (a, n) in g;
    }
  }

  lemma BestExists(g: Arcs, w: (Node, Node) -> real, a: Node, b: Node, avoid: set<Node>) returns (r: real)
    requires ProperWeights(w)
    ensures IsBest(g, w, a, b, avoid, r) && 0.0 <= r <= 1.0
    decreases Sources(g) - avoid, 1
  {
    if a in avoid {
      return 0.0;
    }
    if a == b {
      BestAtTarget(g, w, a, avoid);
      return 1.0;
    }
    SuccessorsAreArcs(g, a);
    if Successors(g, a) == {} {
      r := 0.0;
    } else {
      var n :| n in Successors(g, a);
      assert (a, n) in g;
      assert a in Sources(g) - avoid;
      r := BestViaExists(g, w, a, b, avoid, Successors(g, a));
    }
    BestElsewhere(g, w, a, b, avoid, Successors(g, a), r);
  }

  lemma BestViaExists(g: Arcs, w: (Node, Node) -> real, a: Node, b: Node, avoid: set<Node>, first: set<Node>) returns (r: real)
    requires ProperWeights(w) && a != b && a in Sources(g) - avoid && forall n :: n in first ==> HasArc(g, a, n)
    ensures IsBestVia(g, w, a, b, avoid, first, r) && 0.0 <= r <= 1.0
    decreases Sources(g) - avoid, 0, first
  {
    r := 0.0;
    if first != {} {
      var n :| n in first;
      var r0 := BestViaExists(g, w, a, b, avoid, first - {n});
      assert Sources(g) - (avoid + {a}) < Sources(g) - avoid;
      var s := BestExists(g, w, n, b, avoid + {a});
      BestViaStep(g, w, a, n, b, avoid, first - {n}, r0, s);
      assert first - {n} + {n} == first;
      ScaleDown(s, w(a, n));
      r := Max(r0, w(a, n) * s);
    }
  }

  /** The best product over simple paths from `a` to `b` outside `avoid`, and 0 when there are none. */
  ghost function Best(g: Arcs, w: (Node, Node) -> real, a: Node, b: Node, avoid: set<Node>): (r: real)
    requires ProperWeights(w)
    ensures IsBest(g, w, a, b, avoid, r) && 0.0 <= r <= 1.0
  {
    assert exists r :: IsBest(g, w, a, b, avoid, r) && 0.0 <= r <= 1.0 by {
      var r := BestExists(g, w, a, b, avoid);
    }
    var r :| IsBest(g, w, a, b, avoid, r) && 0.0 <= r <= 1.0;
    r
  }

  // ---------- optimal over all walks ----------

  /** Cycles never help: no walk at all beats the best simple path, which is 0 exactly when there is no walk. */
  lemma BestBeatsEveryWalk(g: Arcs, w: (Node, Node) -> real, a: Node, b: Node)
    requires ProperWeights(w)
    ensures forall p :: WalkBetween(g, a, b, p) ==> Product(w, p) <= Best(g, w, a, b, {})
    ensures Best(g, w, a, b, {}) > 0.0 <==> Reachable(g, a, b)
  {
    forall p | WalkBetween(g, a, b, p)
      ensures Product(w, p) <= Best(g, w, a, b, {}) && 0.0 < Product(w, p)
    {
      var q := CutCycles(g, w, a, b, p);
      ProductBounds(w, p);
    }
  }

  /** Going through an intermediate node is never better than the optimum. */
  lemma BestTriangle(g: Arcs, w: (Node, Node) -> real, a: Node, b: Node, c: Node)
    requires ProperWeights(w)
    ensures Best(g, w, a, b, {}) * Best(g, w, b, c, {}) <= Best(g, w, a, c, {})
  {
    hide Product;
    var x, y := Best(g, w, a, b, {}), Best(g, w, b, c, {});
    if x != 0.0 && y != 0.0 {
      var p :| PathAvoiding(g, a, b, {}, p) && Product(w, p) == x;
      var q :| PathAvoiding(g, b, c, {}, q) && Product(w, q) == y;
      WalkConcat(g, a, b, c, p, q);
      ProductConcat(w, p, q);
      BestBeatsEveryWalk(g, w, a, c);
    }
  }
}
