/**
 Programs that consume random draws, as trees. A node reads one draw and goes on with the branch it picks; no
 node reads a draw that a node above it has read. Every branch is picked by an interval of draws as long as its
 weight, so under independent uniform draws `Mean` is the mean of what `Eval` computes.
 */
module Draws {
  import opened Sums
  import opened Acceptance

  /** The two streams a generation reads: the acceptance generator's and the sampler's. */
  datatype Streams = Streams(accept: nat -> real, sample: nat -> real)

  ghost predicate Fair(z: Streams) {
    forall i: nat :: 0.0 <= z.accept(i) < 1.0 && 0.0 <= z.sample(i) < 1.0
  }

  datatype Tree = Leaf(value: real) | Read(accepting: bool, weights: seq<real>, pick: real -> nat, next: seq<Tree>)

  /** Branch `t` is picked by the draws between `lo` and `hi`, and by no others but perhaps the two ends. */
  ghost predicate Hits(pick: real -> nat, t: nat, lo: real, hi: real) {
    forall x: real | 0.0 < x < 1.0 :: (lo < x < hi ==> pick(x) == t) && (pick(x) == t ==> lo <= x <= hi)
  }

  /** Every branch is picked by an interval of draws as long as its weight. */
  ghost predicate Spread(pick: real -> nat, p: seq<real>) {
    IsDist(p) && forall t: nat | t < |p| :: PickedBy(pick, p, t)
  }

  ghost predicate PickedBy(pick: real -> nat, p: seq<real>, t: nat)
    requires t < |p|
  {
    exists lo, hi :: 0.0 <= lo <= hi <= 1.0 && hi - lo == p[t] && Hits(pick, t, lo, hi)
  }

  ghost predicate ValidTree(t: Tree) {
    t.Read? ==>
      && Spread(t.pick, t.weights) && |t.next| == |t.weights|
      && forall i | 0 <= i < |t.next| :: ValidTree(t.next[i])
  }

  function Mean(t: Tree): real {
    match t
    case Leaf(v) => v
    case Read(_, p, _, next) => Expect(p, (i: nat) => if i < |next| then Mean(next[i]) else 0.0)
  }

  /** What the tree computes, `k` and `j` being the next unread draws of the two streams. */
  function Eval(t: Tree, z: Streams, k: nat, j: nat): real {
    match t
    case Leaf(v) => v
    case Read(accepting, _, pick, next) =>
      var i := pick(if accepting then z.accept(k) else z.sample(j));
      if i >= |next| then 0.0
      else if accepting then Eval(next[i], z, k + 1, j)
      else Eval(next[i], z, k, j + 1)
  }

  // ---- Drawing from a distribution ----

  function DrawNode(accepting: bool, p: seq<real>, child: nat -> Tree): Tree {
    Read(accepting, p, (x: real) => Draw(p, x), seq(|p|, i requires 0 <= i < |p| => child(i)))
  }

  lemma DrawNodeMean(accepting: bool, p: seq<real>, child: nat -> Tree, v: nat -> real)
    requires forall t: nat | t < |p| :: v(t) == Mean(child(t))
    ensures Mean(DrawNode(accepting, p, child)) == Expect(p, v)
  {
    var next := DrawNode(accepting, p, child).next;
    ExpectExt(p, (i: nat) => if i < |next| then Mean(next[i]) else 0.0, v);
  }

  lemma DrawNodeEval(accepting: bool, p: seq<real>, child: nat -> Tree, z: Streams, k: nat, j: nat)
    requires IsDist(p) && Fair(z)
    ensures var t := Draw(p, if accepting then z.accept(k) else z.sample(j));
            && t < |p| && p[t] > 0.0
            && Eval(DrawNode(accepting, p, child), z, k, j)
               == if accepting then Eval(child(t), z, k + 1, j) else Eval(child(t), z, k, j + 1)
  {
    assert 0.0 <= z.accept(k) < 1.0 && 0.0 <= z.sample(j) < 1.0;
    DrawSupport(p, if accepting then z.accept(k) else z.sample(j));
  }

  lemma DrawNodeValid(accepting: bool, p: seq<real>, child: nat -> Tree)
    requires IsDist(p) && forall t: nat | t < |p| :: ValidTree(child(t))
    ensures ValidTree(DrawNode(accepting, p, child))
  {
    var pick := DrawNode(accepting, p, child).pick;
    forall t: nat | t < |p| ensures PickedBy(pick, p, t) {
      var lo, hi := Cum(p, t), Cum(p, t + 1);
      forall x: real | 0.0 < x < 1.0 ensures (lo < x < hi ==> pick(x) == t) && (pick(x) == t ==> lo <= x <= hi) {
        DrawInterval(p, x, t);
      }
      CumNext(p, t);
      CumMonotone(p, 0, t);
      CumMonotone(p, t + 1, |p|);
      assert Cum(p, |p|) == Mass(p);
      assert Hits(pick, t, lo, hi);
    }
  }

  // ---- A test against a threshold ----

  function TestNode(a: real, below: Tree, above: Tree): Tree {
    Read(true, [a, 1.0 - a], (x: real) => if x < a then 0 else 1, [below, above])
  }

  lemma PairSum(f: nat -> real)
    ensures SumTo(f, 2) == f(0) + f(1)
  {
    assert SumTo(f, 0) == 0.0 && SumTo(f, 1) == f(0);
  }

  lemma TestNodeMean(a: real, below: Tree, above: Tree)
    ensures Mean(TestNode(a, below, above)) == Mix(a, Mean(below), Mean(above))
  {
    var p, next := [a, 1.0 - a], [below, above];
    var v := (i: nat) => if i < |next| then Mean(next[i]) else 0.0;
    assert Mean(TestNode(a, below, above)) == Expect(p, v);
    PairSum((i: nat) => Mul(At(p, i), v(i)));
    assert v(0) == Mean(below) && v(1) == Mean(above);
  }

  lemma TestNodeEval(a: real, below: Tree, above: Tree, z: Streams, k: nat, j: nat)
    ensures Eval(TestNode(a, below, above), z, k, j) == Eval(if z.accept(k) < a then below else above, z, k + 1, j)
  {
  }

  lemma TestNodeValid(a: real, below: Tree, above: Tree)
    requires 0.0 <= a <= 1.0 && ValidTree(below) && ValidTree(above)
    ensures ValidTree(TestNode(a, below, above))
  {
    var p, pick := [a, 1.0 - a], (x: real) => if x < a then 0 else 1;
    PairSum((i: nat) => At(p, i));
    assert IsDist(p);
    assert Hits(pick, 0, 0.0, a) && Hits(pick, 1, a, 1.0);
    forall t: nat | t < |p| ensures PickedBy(pick, p, t) {
      if t == 0 {
        assert a - 0.0 == p[0];
      } else {
        assert t == 1 && 1.0 - a == p[1];
      }
    }
  }
}
