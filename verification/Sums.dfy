/** Finite sums of reals and the zero-padded reading of a probability vector. */
module Sums {

  /** Entry `i` of a vector, reading 0 past its end (a smaller vocabulary is padded with zeros). */
  function At(p: seq<real>, i: nat): real {
    if i < |p| then p[i] else 0.0
  }

  /** A product under a name of its own: proofs rewrite it with the laws below instead of unfolding it. */
  function Mul(x: real, y: real): real {
    x * y
  }

  lemma MulLaws(x: real, y: real, z: real)
    ensures Mul(x, y) == Mul(y, x)
    ensures Mul(x, y + z) == Mul(x, y) + Mul(x, z)
    ensures Mul(x, Mul(y, z)) == Mul(Mul(x, y), z)
    ensures Mul(x, 0.0) == 0.0 && Mul(1.0, x) == x
  {
  }

  /** The mean of two values, the first with weight `a`. */
  function Mix(a: real, x: real, y: real): real {
    Mul(a, x) + Mul(1.0 - a, y)
  }

  /** f(0) + ... + f(n-1). */
  function SumTo(f: nat -> real, n: nat): real {
    if n == 0 then 0.0 else SumTo(f, n - 1) + f(n - 1)
  }

  /** The total mass of a vector. */
  function Mass(p: seq<real>): real {
    SumTo((i: nat) => At(p, i), |p|)
  }

  ghost predicate IsDist(p: seq<real>) {
    && (forall i | 0 <= i < |p| :: p[i] >= 0.0)
    && Mass(p) == 1.0
  }

  /** The mean of `v` under `p`. */
  function Expect(p: seq<real>, v: nat -> real): real {
    SumTo((i: nat) => Mul(At(p, i), v(i)), |p|)
  }

  lemma {:induction false} SumExt(f: nat -> real, g: nat -> real, n: nat)
    requires forall i: nat | i < n :: f(i) == g(i)
    ensures SumTo(f, n) == SumTo(g, n)
  {
    if n > 0 { SumExt(f, g, n - 1); }
  }

  lemma {:induction false} SumAdd(f: nat -> real, g: nat -> real, h: nat -> real, n: nat)
    requires forall i: nat | i < n :: h(i) == f(i) + g(i)
    ensures SumTo(h, n) == SumTo(f, n) + SumTo(g, n)
  {
    if n > 0 { SumAdd(f, g, h, n - 1); }
  }

  lemma {:induction false} SumScale(c: real, f: nat -> real, g: nat -> real, n: nat)
    requires forall i: nat | i < n :: g(i) == Mul(c, f(i))
    ensures SumTo(g, n) == Mul(c, SumTo(f, n))
  {
    if n > 0 {
      SumScale(c, f, g, n - 1);
      MulLaws(c, SumTo(f, n - 1), f(n - 1));
    } else {
      MulLaws(c, 0.0, 0.0);
    }
  }

  lemma {:induction false} SumNonneg(f: nat -> real, n: nat)
    requires forall i: nat | i < n :: f(i) >= 0.0
    ensures SumTo(f, n) >= 0.0
    ensures forall i: nat | i < n :: f(i) <= SumTo(f, n)
  {
    if n > 0 { SumNonneg(f, n - 1); }
  }

  /** Trailing zeros do not change a sum. */
  lemma {:induction false} SumPad(f: nat -> real, m: nat, n: nat)
    requires m <= n
    requires forall i: nat | m <= i < n :: f(i) == 0.0
    ensures SumTo(f, n) == SumTo(f, m)
  {
    if m < n { SumPad(f, m, n - 1); }
  }

  /** A vector that is zero except at `a` sums to its entry there. */
  lemma {:induction false} SumSingle(f: nat -> real, a: nat, n: nat)
    requires forall i: nat | i < n && i != a :: f(i) == 0.0
    ensures SumTo(f, n) == if a < n then f(a) else 0.0
  {
    if n > 0 { SumSingle(f, a, n - 1); }
  }

  /** The mean of a function that is constant on the support of a distribution. */
  lemma ExpectConst(p: seq<real>, v: nat -> real, c: real)
    requires IsDist(p)
    requires forall t: nat | t < |p| :: v(t) == c
    ensures Expect(p, v) == c
  {
    forall i: nat { MulLaws(c, At(p, i), 0.0); }
    SumScale(c, (i: nat) => At(p, i), (i: nat) => Mul(At(p, i), v(i)), |p|);
    MulLaws(1.0, c, 0.0);
    MulLaws(c, 1.0, 0.0);
  }

  /** An affine function of a quantity has the same affine function of its mean as its mean. */
  lemma ExpectAffine(p: seq<real>, v: nat -> real, w: nat -> real, a: real, b: real)
    requires IsDist(p)
    requires forall t: nat | t < |p| :: w(t) == Mul(a, v(t)) + b
    ensures Expect(p, w) == Mul(a, Expect(p, v)) + b
  {
    var f := (i: nat) => Mul(At(p, i), v(i));
    var g := (i: nat) => Mul(a, f(i));
    var m := (i: nat) => Mul(b, At(p, i));
    SumScale(a, f, g, |p|);
    SumScale(b, (i: nat) => At(p, i), m, |p|);
    forall i: nat | i < |p| ensures Mul(At(p, i), w(i)) == g(i) + m(i) {
      MulLaws(At(p, i), Mul(a, v(i)), b);
      MulLaws(a, At(p, i), v(i));
      MulLaws(At(p, i), a, v(i));
      MulLaws(b, At(p, i), 0.0);
    }
    SumAdd(g, m, (i: nat) => Mul(At(p, i), w(i)), |p|);
    MulLaws(1.0, b, 0.0);
    MulLaws(b, 1.0, 0.0);
  }

  /** A mean depends only on the outcomes that can happen. */
  lemma ExpectSupport(p: seq<real>, v: nat -> real, w: nat -> real)
    requires forall t: nat | t < |p| && p[t] != 0.0 :: v(t) == w(t)
    ensures Expect(p, v) == Expect(p, w)
  {
    forall t: nat | t < |p| ensures Mul(At(p, t), v(t)) == Mul(At(p, t), w(t)) {
      if p[t] == 0.0 {
        MulLaws(v(t), 0.0, 0.0);
        MulLaws(w(t), 0.0, 0.0);
      }
    }
    SumExt((i: nat) => Mul(At(p, i), v(i)), (i: nat) => Mul(At(p, i), w(i)), |p|);
  }

  lemma ExpectExt(p: seq<real>, v: nat -> real, w: nat -> real)
    requires forall t: nat | t < |p| :: v(t) == w(t)
    ensures Expect(p, v) == Expect(p, w)
  {
    ExpectSupport(p, v, w);
  }

  lemma MulMonotone(a: real, x: real, y: real)
    requires a >= 0.0 && x <= y
    ensures Mul(a, x) <= Mul(a, y)
  {
  }

  lemma {:induction false} SumMonotone(f: nat -> real, g: nat -> real, n: nat)
    requires forall i: nat | i < n :: f(i) <= g(i)
    ensures SumTo(f, n) <= SumTo(g, n)
  {
    if n > 0 { SumMonotone(f, g, n - 1); }
  }

  lemma ExpectMonotone(p: seq<real>, v: nat -> real, w: nat -> real)
    requires IsDist(p)
    requires forall t: nat | t < |p| :: v(t) <= w(t)
    ensures Expect(p, v) <= Expect(p, w)
  {
    forall t: nat | t < |p| ensures Mul(At(p, t), v(t)) <= Mul(At(p, t), w(t)) {
      MulMonotone(At(p, t), v(t), w(t));
    }
    SumMonotone((i: nat) => Mul(At(p, i), v(i)), (i: nat) => Mul(At(p, i), w(i)), |p|);
  }

  /** Means of quantities between 0 and 1 are, and one that is 0 or 1 is so at every outcome that can happen. */
  lemma ExpectChance(p: seq<real>, v: nat -> real)
    requires IsDist(p)
    requires forall t: nat | t < |p| :: 0.0 <= v(t) <= 1.0
    ensures 0.0 <= Expect(p, v) <= 1.0
    ensures Expect(p, v) == 0.0 ==> forall t: nat | t < |p| && p[t] != 0.0 :: v(t) == 0.0
    ensures Expect(p, v) == 1.0 ==> forall t: nat | t < |p| && p[t] != 0.0 :: v(t) == 1.0
  {
    ExpectVanishes(p, v);
    var w := (t: nat) => 1.0 - v(t);
    forall t: nat | t < |p| ensures w(t) == Mul(-1.0, v(t)) + 1.0 {
    }
    ExpectAffine(p, v, w, -1.0, 1.0);
    assert Mul(-1.0, Expect(p, v)) == -Expect(p, v);
    ExpectVanishes(p, w);
  }

  lemma ExpectVanishes(p: seq<real>, v: nat -> real)
    requires IsDist(p)
    requires forall t: nat | t < |p| :: 0.0 <= v(t)
    ensures 0.0 <= Expect(p, v)
    ensures Expect(p, v) == 0.0 ==> forall t: nat | t < |p| && p[t] != 0.0 :: v(t) == 0.0
  {
    var f := (i: nat) => Mul(At(p, i), v(i));
    forall t: nat | t < |p| ensures 0.0 <= f(t) && (v(t) != 0.0 && p[t] != 0.0 ==> f(t) > 0.0) {
      MulPositive(At(p, t), v(t));
    }
    SumNonneg(f, |p|);
    if Expect(p, v) == 0.0 {
      forall t: nat | t < |p| && p[t] != 0.0 ensures v(t) == 0.0 {
        assert f(t) <= SumTo(f, |p|);
      }
    }
  }

  lemma MulPositive(x: real, y: real)
    requires x >= 0.0 && y >= 0.0
    ensures Mul(x, y) >= 0.0 && (x > 0.0 && y > 0.0 ==> Mul(x, y) > 0.0)
  {
  }

  /** The mean of a multiple of one quantity plus a bonus at one outcome. */
  lemma ExpectBonus(p: seq<real>, v: nat -> real, w: nat -> real, z: real, a: nat, bonus: real)
    requires a < |p|
    requires forall t: nat | t < |p| :: w(t) == Mul(z, v(t)) + if t == a then bonus else 0.0
    ensures Expect(p, w) == Mul(z, Expect(p, v)) + Mul(p[a], bonus)
  {
    var f := (i: nat) => Mul(At(p, i), v(i));
    var g := (i: nat) => Mul(z, f(i));
    var b := (i: nat) => if i == a then Mul(At(p, i), bonus) else 0.0;
    SumScale(z, f, g, |p|);
    SumSingle(b, a, |p|);
    forall i: nat | i < |p| ensures Mul(At(p, i), w(i)) == g(i) + b(i) {
      MulLaws(At(p, i), Mul(z, v(i)), if i == a then bonus else 0.0);
      MulLaws(z, At(p, i), v(i));
      MulLaws(At(p, i), z, v(i));
      MulLaws(At(p, i), 0.0, 0.0);
    }
    SumAdd(g, b, (i: nat) => Mul(At(p, i), w(i)), |p|);
  }
}
