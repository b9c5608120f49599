/**
 Walks and simple paths over a finite directed graph given as a set of arcs,
 and the product of edge probabilities along a walk.
 Parallel edges collapse to one arc: neither reachability nor the products below can tell them apart.
 */
module Walks {
  import opened Sorting

  type Node = string
  type Arcs = set<(Node, Node)>

  predicate HasArc(g: Arcs, a: Node, b: Node) {
    (a, b) in g
  }

  ghost function NodesOf(p: seq<Node>): set<Node> {
    set n | n in p
  }

  ghost predicate IsWalk(g: Arcs, p: seq<Node>) {
    |p| > 0 && forall i :: 0 <= i < |p| - 1 ==> HasArc(g, p[i], p[i + 1])
  }

  ghost predicate WalkBetween(g: Arcs, a: Node, b: Node, p: seq<Node>) {
    IsWalk(g, p) && p[0] == a && p[|p| - 1] == b
  }

  ghost predicate Reachable(g: Arcs, a: Node, b: Node) {
    exists p :: WalkBetween(g, a, b, p)
  }

  /** A simple path from `a` to `b` that touches no node of `avoid`. */
  ghost predicate PathAvoiding(g: Arcs, a: Node, b: Node, avoid: set<Node>, p: seq<Node>) {
    WalkBetween(g, a, b, p) && Distinct(p) && forall i :: 0 <= i < |p| ==> p[i] !in avoid
  }

  /** The first step of a path, and putting one back. */
  lemma PathTail(g: Arcs, a: Node, b: Node, avoid: set<Node>, p: seq<Node>)
    requires PathAvoiding(g, a, b, avoid, p) && a != b
    ensures |p| >= 2 && HasArc(g, a, p[1]) && p[1] !in avoid + {a}
    ensures PathAvoiding(g, p[1], b, avoid + {a}, p[1..])
  {
    var q := p[1..];
    assert forall i :: 0 <= i < |q| ==> q[i] == p[i + 1];
    assert HasArc(g, p[0], p[0 + 1]);
    forall i | 0 <= i < |q| - 1
      ensures HasArc(g, q[i], q[i + 1])
    {
      assert HasArc(g, p[i + 1], p[i + 1 + 1]);
    }
  }

  lemma PathCons(g: Arcs, a: Node, n: Node, b: Node, avoid: set<Node>, q: seq<Node>)
    requires HasArc(g, a, n) && a !in avoid && PathAvoiding(g, n, b, avoid + {a}, q)
    ensures PathAvoiding(g, a, b, avoid, [a] + q)
  {
    var p := [a] + q;
    assert forall i :: 0 < i < |p| ==> p[i] == q[i - 1];
    forall i | 0 <= i < |p| - 1
      ensures HasArc(g, p[i], p[i + 1])
    {
      if i > 0 { assert HasArc(g, q[i - 1], q[i - 1 + 1]); }
    }
  }

  lemma WalkConcat(g: Arcs, a: Node, b: Node, c: Node, p: seq<Node>, q: seq<Node>)
    requires WalkBetween(g, a, b, p) && WalkBetween(g, b, c, q)
    ensures WalkBetween(g, a, c, p + q[1..])
  {
    var r := p + q[1..];
    forall i | 0 <= i < |r| - 1
      ensures HasArc(g, r[i], r[i + 1])
    {
      if i >= |p| - 1 {
        assert r[i + 1] == q[i + 1 - |p| + 1];
        assert r[i] == q[i - |p| + 1];
        assert HasArc(g, q[i - |p| + 1], q[i - |p| + 1 + 1]);
      }
    }
  }

  lemma WalkSuffix(g: Arcs, p: seq<Node>, k: nat)
    requires IsWalk(g, p) && k < |p|
    ensures IsWalk(g, p[k..])
  {
    var q := p[k..];
    forall i | 0 <= i < |q| - 1
      ensures HasArc(g, q[i], q[i + 1])
    {
      assert HasArc(g, p[i + k], p[i + k + 1]);
    }
  }

  // ---------- products ----------

  /** Every arc weight lies in (0, 1]. */
  ghost predicate ProperWeights(w: (Node, Node) -> real) {
    forall a, b :: 0.0 < w(a, b) <= 1.0
  }

  ghost function Product(w: (Node, Node) -> real, p: seq<Node>): real {
    if |p| <= 1 then 1.0 else w(p[0], p[1]) * Product(w, p[1..])
  }

  lemma {:induction false} ProductBounds(w: (Node, Node) -> real, p: seq<Node>)
    requires ProperWeights(w)
    ensures 0.0 < Product(w, p) <= 1.0
  {
    if |p| > 1 {
      ProductBounds(w, p[1..]);
      assert 0.0 < w(p[0], p[1]) <= 1.0;
      ScaleDown(w(p[0], p[1]), Product(w, p[1..]));
    }
  }

  /** Multiplying a non-negative number by a factor of (0, 1] does not increase it. */
  lemma ScaleDown(x: real, f: real)
    requires 0.0 <= x && 0.0 < f <= 1.0
    ensures 0.0 <= x * f <= x && f * x == x * f
    ensures x > 0.0 ==> x * f > 0.0
  {
  }

  lemma UnitScale(x: real, f: real)
    requires 0.0 <= x && 0.0 <= f <= 1.0
    ensures 0.0 <= x * f <= x && f * x == x * f
  {
    if f > 0.0 { ScaleDown(x, f); }
  }

  lemma {:induction false} ProductSplit(w: (Node, Node) -> real, p: seq<Node>, k: nat)
    requires k < |p|
    ensures Product(w, p) == Product(w, p[..k + 1]) * Product(w, p[k..])
  {
    if k == 0 {
      assert p[0..] == p && |p[..1]| == 1;
    } else {
      ProductSplit(w, p[1..], k - 1);
      assert p[1..][..k] == p[..k + 1][1..];
      assert p[1..][k - 1..] == p[k..];
      var x, y, z := w(p[0], p[1]), Product(w, p[..k + 1][1..]), Product(w, p[k..]);
      assert Product(w, p) == x * (y * z);
      assert Product(w, p[..k + 1]) == x * y;
      assert x * (y * z) == (x * y) * z;
    }
  }

  lemma {:induction false} ProductConcat(w: (Node, Node) -> real, p: seq<Node>, q: seq<Node>)
    requires |p| > 0 && |q| > 0 && p[|p| - 1] == q[0]
    ensures Product(w, p + q[1..]) == Product(w, p) * Product(w, q)
  {
    var r := p + q[1..];
    ProductSplit(w, r, |p| - 1);
    assert r[..|p|] == p;
    assert r[|p| - 1..] == q;
  }

  lemma {:induction false} ProductSnoc(w: (Node, Node) -> real, p: seq<Node>, n: Node)
    requires |p| > 0
    ensures Product(w, p + [n]) == Product(w, p) * w(p[|p| - 1], n)
  {
    var step := [p[|p| - 1], n];
    ProductConcat(w, p, step);
    assert step[1..] == [n];
    assert Product(w, step) == w(step[0], step[1]) * Product(w, step[1..]);
  }

  /** Walking on never makes a walk more probable. */
  lemma {:induction false} ProductShrinks(w: (Node, Node) -> real, p: seq<Node>, k: nat)
    requires ProperWeights(w) && k < |p|
    ensures Product(w, p) <= Product(w, p[..k + 1])
  {
    hide Product;
    ProductSplit(w, p, k);
    ProductBounds(w, p[k..]);
    ProductBounds(w, p[..k + 1]);
    Shrunk(Product(w, p), Product(w, p[..k + 1]), Product(w, p[k..]));
  }

  lemma Shrunk(whole: real, head: real, tail: real)
    requires whole == head * tail && 0.0 <= head && 0.0 < tail <= 1.0
    ensures whole <= head
  {
    ScaleDown(head, tail);
  }

  /** Dropping the closed stretch p[i..j + 1] of a walk never makes it less probable. */
  lemma {:induction false} CutOneCycle(g: Arcs, w: (Node, Node) -> real, a: Node, b: Node, p: seq<Node>, i: nat, j: nat) returns (q: seq<Node>)
    requires ProperWeights(w) && WalkBetween(g, a, b, p)
    requires i < j < |p| && p[i] == p[j]
    ensures WalkBetween(g, a, b, q) && Product(w, p) <= Product(w, q) && |q| < |p|
  {
    hide Product;
    var head, tail := p[..i + 1], p[j..];
    WalkSuffix(g, p, j);
    WalkConcat(g, a, p[i], b, head, tail);
    q := head + tail[1..];
    ProductConcat(w, head, tail);
    CutProduct(w, p, i, j);
  }

  lemma {:induction false} CutProduct(w: (Node, Node) -> real, p: seq<Node>, i: nat, j: nat)
    requires ProperWeights(w) && i < j < |p|
    ensures Product(w, p) <= Product(w, p[..i + 1]) * Product(w, p[j..])
  {
    hide Product;
    var rest := p[i..];
    ProductSplit(w, p, i);
    ProductSplit(w, rest, j - i);
    assert rest[j - i..] == p[j..];
    ProductBounds(w, p[..i + 1]);
    ProductBounds(w, rest[..j - i + 1]);
    ProductBounds(w, p[j..]);
    DropFactor(Product(w, p), Product(w, p[..i + 1]), Product(w, rest), Product(w, rest[..j - i + 1]), Product(w, p[j..]));
  }

  lemma DropFactor(whole: real, h: real, rest: real, l: real, t: real)
    requires 0.0 < h && 0.0 < l <= 1.0 && 0.0 < t
    requires whole == h * rest && rest == l * t
    ensures whole <= h * t
  {
    ScaleDown(t, l);
    MulMonotone(h, rest, t);
  }

  lemma MulMonotone(h: real, x: real, y: real)
    requires 0.0 <= h && x <= y
    ensures h * x <= h * y
  {
  }

  /** Cutting the cycles out of a walk leaves a simple path that is at least as probable. */
  lemma {:induction false} CutCycles(g: Arcs, w: (Node, Node) -> real, a: Node, b: Node, p: seq<Node>) returns (q: seq<Node>)
    requires ProperWeights(w) && WalkBetween(g, a, b, p)
    ensures PathAvoiding(g, a, b, {}, q) && Product(w, p) <= Product(w, q)
    decreases |p|
  {
    hide Product;
    if Distinct(p) {
      return p;
    }
    var i, j :| 0 <= i < j < |p| && p[i] == p[j];
    var shorter := CutOneCycle(g, w, a, b, p, i, j);
    q := CutCycles(g, w, a, b, shorter);
  }
}
