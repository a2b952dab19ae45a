/**
 * The tree walker: `walk(node, fn)` calls `fn` on the node and then walks each child of a
 * `WithChildren` node, left to right. Its only effect is the caller's callback, so the model
 * is the sequence of nodes `fn` is called on, in call order.
 */
module Walkers {
  import opened Nodes

  /** The nodes `walk(n, fn)` hands to `fn`, in the order of the calls. */
  function PreOrder(n: Node): (r: seq<Node>)
    decreases n, 1
    ensures |r| >= 1 && r[0] == n
    ensures !IsWithChildren(n) ==> r == [n]
  {
    match n
    case Unary(_, c) => [n] + PreOrder(c)
    case Binary(_, l, rt) => [n] + PreOrder(l) + PreOrder(rt)
    case GetProperty(o, p) => [n] + PreOrder(o) + PreOrder(p)
    case Call(m, args) => [n] + PreOrder(m) + PreOrderAll(args)
    case Concat(parts) => [n] + PreOrderAll(parts)
    case _ => [n]
  }

  /** The walks of a list of siblings, one complete subtree after the other. */
  function PreOrderAll(xs: seq<Node>): (r: seq<Node>)
    decreases xs, 0
    ensures |r| >= |xs|
  {
    if xs == [] then [] else PreOrder(xs[0]) + PreOrderAll(xs[1..])
  }

  /** The number of nodes in a tree, counted over the `WithChildren` child lists. */
  function Size(n: Node): (r: nat)
    decreases n, 1
    ensures r >= 1
  {
    match n
    case Unary(_, c) => 1 + Size(c)
    case Binary(_, l, rt) => 1 + Size(l) + Size(rt)
    case GetProperty(o, p) => 1 + Size(o) + Size(p)
    case Call(m, args) => 1 + Size(m) + SizeAll(args)
    case Concat(parts) => 1 + SizeAll(parts)
    case _ => 1
  }

  function SizeAll(xs: seq<Node>): nat
    decreases xs, 0
  {
    if xs == [] then 0 else Size(xs[0]) + SizeAll(xs[1..])
  }

  lemma {:induction false} PreOrderAllAppend(xs: seq<Node>, ys: seq<Node>)
    ensures PreOrderAll(xs + ys) == PreOrderAll(xs) + PreOrderAll(ys)
    decreases xs
  {
    if xs == [] {
      assert xs + ys == ys;
    } else {
      assert (xs + ys)[0] == xs[0];
      assert (xs + ys)[1..] == xs[1..] + ys;
      PreOrderAllAppend(xs[1..], ys);
    }
  }

  lemma PreOrderAllOne(x: Node)
    ensures PreOrderAll([x]) == PreOrder(x)
  {
    assert [x][1..] == [];
  }

  /**
   * The walk calls `fn` on the node first, then walks its children (the method followed by
   * the arguments for a call) left to right, each subtree completely before the next.
   */
  lemma PreOrderIsNodeThenChildren(n: Node)
    ensures PreOrder(n) == [n] + PreOrderAll(Children(n))
  {
    match n
    case Unary(_, c) =>
      PreOrderAllOne(c);
    case Binary(_, l, rt) =>
      PairWalk(l, rt);
      assert Children(n) == [l, rt];
    case GetProperty(o, p) =>
      PairWalk(o, p);
      assert Children(n) == [o, p];
    case Call(m, args) =>
      PreOrderAllAppend([m], args);
      PreOrderAllOne(m);
      assert Children(n) == [m] + args;
      assert PreOrder(n) == [n] + PreOrder(m) + PreOrderAll(args);
    case Concat(parts) =>
    case _ =>
  }

  lemma PairWalk(x: Node, y: Node)
    ensures PreOrderAll([x, y]) == PreOrder(x) + PreOrder(y)
  {
    assert [x, y] == [x] + [y];
    PreOrderAllAppend([x], [y]);
    PreOrderAllOne(x);
    PreOrderAllOne(y);
  }

  /** `fn` is called exactly once per node of the tree. */
  lemma {:induction false} PreOrderLength(n: Node)
    ensures |PreOrder(n)| == Size(n)
    decreases n, 1
  {
    match n
    case Unary(_, c) => PreOrderLength(c);
    case Binary(_, l, rt) => PreOrderLength(l); PreOrderLength(rt);
    case GetProperty(o, p) => PreOrderLength(o); PreOrderLength(p);
    case Call(m, args) => PreOrderLength(m); PreOrderAllLength(args);
    case Concat(parts) => PreOrderAllLength(parts);
    case _ =>
  }

  lemma {:induction false} PreOrderAllLength(xs: seq<Node>)
    ensures |PreOrderAll(xs)| == SizeAll(xs)
    decreases xs, 0
  {
    if xs != [] {
      PreOrderLength(xs[0]);
      PreOrderAllLength(xs[1..]);
    }
  }

  /** A node is visited by the walk of a sibling list iff it is visited by the walk of one sibling. */
  lemma {:induction false} PreOrderAllMember(xs: seq<Node>, x: Node)
    ensures x in PreOrderAll(xs) <==> exists i :: 0 <= i < |xs| && x in PreOrder(xs[i])
    decreases xs
  {
    if xs != [] {
      PreOrderAllMember(xs[1..], x);
      if x in PreOrderAll(xs[1..]) {
        var i :| 0 <= i < |xs[1..]| && x in PreOrder(xs[1..][i]);
        assert x in PreOrder(xs[i + 1]);
      }
      if exists i :: 0 <= i < |xs| && x in PreOrder(xs[i]) {
        var i :| 0 <= i < |xs| && x in PreOrder(xs[i]);
        if i > 0 {
          assert xs[i] == xs[1..][i - 1];
        }
      }
    }
  }

  /** The walk reaches exactly the node itself and what the walks of its children reach. */
  lemma Visited(n: Node, x: Node)
    ensures x in PreOrder(n) <==>
      x == n || exists i :: 0 <= i < |Children(n)| && x in PreOrder(Children(n)[i])
  {
    PreOrderIsNodeThenChildren(n);
    PreOrderAllMember(Children(n), x);
  }
}
