/**
 The acceptance rule of speculative sampling: the accept test, the residual
 distribution a rejected token is redrawn from, and the inverse-CDF draw.
 Probabilities are reals; a uniform draw is any number in [0, 1).
 */
module Acceptance {
  import opened Sums

  function Min(x: real, y: real): real { if x <= y then x else y }
  function Excess(x: real, y: real): real { if x - y > 0.0 then x - y else 0.0 }

  /** The accept test, written without a division. */
  predicate AcceptToken(p: real, q: real, r: real) {
    r * q < p
  }

  /** The length of the interval of draws in [0, 1) that `AcceptToken` accepts. */
  function AcceptProb(p: real, q: real): real {
    if p <= 0.0 then 0.0 else if q <= p then 1.0 else p / q
  }

  lemma ScaleOrder(x: real, y: real, q: real)
    requires q > 0.0
    ensures x < y <==> Mul(x, q) < Mul(y, q)
  {
    MulLaws(q, x, y - x);
    MulLaws(x, q, 0.0);
    MulLaws(y, q, 0.0);
    if x < y {
      MulPositive(q, y - x);
    } else {
      MulMonotone(q, y, x);
    }
  }

  /** Comparing with a product is comparing with a quotient. */
  lemma QuotientOrder(r: real, p: real, q: real)
    requires q > 0.0
    ensures Mul(p / q, q) == p && (Mul(r, q) < p <==> r < p / q)
  {
    ScaleOrder(r, p / q, q);
  }

  /** The accepted draws are exactly an initial interval of [0, 1), and drafting then
      accepting a token has joint weight min(p, q). */
  lemma AcceptMeasure(p: real, q: real, r: real)
    requires 0.0 <= p && 0.0 <= q && 0.0 <= r < 1.0
    ensures 0.0 <= AcceptProb(p, q) <= 1.0
    ensures AcceptToken(p, q, r) <==> r < AcceptProb(p, q)
    ensures q * AcceptProb(p, q) == Min(p, q)
  {
    assert AcceptToken(p, q, r) <==> Mul(r, q) < p;
    assert q * AcceptProb(p, q) == Mul(q, AcceptProb(p, q));
    hide AcceptToken, Mul;
    MulLaws(r, 0.0, 0.0);
    MulLaws(q, 1.0, 0.0);
    MulLaws(q, r, 0.0);
    MulLaws(q, AcceptProb(p, q), 0.0);
    if q > 0.0 {
      MulPositive(q, r);
      ScaleOrder(r, 1.0, q);
      QuotientOrder(r, p, q);
      QuotientOrder(0.0, p, q);
      QuotientOrder(1.0, p, q);
      MulLaws(0.0, q, 0.0);
    }
  }

  /** Mass by which the target exceeds the draft. */
  function ExcessMass(p: seq<real>, q: seq<real>): real {
    SumTo((i: nat) => Excess(At(p, i), At(q, i)), |p|)
  }

  /** Normalized max(p - q, 0), or `p` itself when nothing is left over. */
  function Residual(p: seq<real>, q: seq<real>): seq<real> {
    var s := ExcessMass(p, q);
    if s <= 0.0 then p else seq(|p|, (i: nat) => Excess(At(p, i), At(q, i)) / s)
  }

  /** The residual of a distribution is a distribution over the same vocabulary. */
  lemma ResidualIsDist(p: seq<real>, q: seq<real>)
    requires IsDist(p)
    ensures |Residual(p, q)| == |p| && IsDist(Residual(p, q))
  {
    var s := ExcessMass(p, q);
    if s > 0.0 {
      var r := Residual(p, q);
      forall i | 0 <= i < |r| ensures r[i] >= 0.0 {
        DivNonneg(Excess(At(p, i), At(q, i)), s);
      }
      SumScale(1.0 / s, (i: nat) => Excess(At(p, i), At(q, i)), (i: nat) => At(r, i), |p|);
      assert Mul(1.0 / s, s) == 1.0;
    }
  }

  lemma DivNonneg(x: real, s: real)
    requires x >= 0.0 && s > 0.0
    ensures x / s >= 0.0
  {
  }

  /** The residual is filled in place, summed on the way, and then normalized in place. */
  method ResidualDistribution(p: seq<real>, q: seq<real>) returns (r: seq<real>)
    ensures r == Residual(p, q)
    ensures IsDist(p) ==> |r| == |p| && IsDist(r)
  {
    var residual := new real[|p|];
    var sum := 0.0;
    for i := 0 to |p|
      invariant forall j: nat | j < i :: residual[j] == Excess(At(p, j), At(q, j))
      invariant sum == SumTo((j: nat) => Excess(At(p, j), At(q, j)), i)
    {
      var qi := if i < |q| then q[i] else 0.0;
      residual[i] := if p[i] - qi > 0.0 then p[i] - qi else 0.0;
      sum := sum + residual[i];
    }
    assert sum == ExcessMass(p, q) by {
      SumExt((j: nat) => Excess(At(p, j), At(q, j)), (i: nat) => Excess(At(p, i), At(q, i)), |p|);
    }
    if sum <= 0.0 {
      r := p;
    } else {
      for i := 0 to |p|
        invariant forall j: nat | j < i :: residual[j] == Excess(At(p, j), At(q, j)) / sum
        invariant forall j: nat | i <= j < |p| :: residual[j] == Excess(At(p, j), At(q, j))
      {
        residual[i] := residual[i] / sum;
      }
      r := residual[..];
      assert r == Residual(p, q);
    }
    if IsDist(p) { ResidualIsDist(p, q); }
  }

  // ---- Drawing from a distribution ----

  /** Mass of the entries before `t`. */
  function Cum(p: seq<real>, t: nat): real {
    SumTo((i: nat) => At(p, i), t)
  }

  function DrawScan(p: seq<real>, i: nat, r: real, last: nat): nat
    decreases |p| - i
  {
    if i >= |p| then last
    else if p[i] <= 0.0 then DrawScan(p, i + 1, r, last)
    else if r - p[i] <= 0.0 then i
    else DrawScan(p, i + 1, r - p[i], i)
  }

  /** The token a uniform draw `u` selects. */
  function Draw(p: seq<real>, u: real): nat {
    DrawScan(p, 0, u, 0)
  }

  /** The scanning loop shared by the sampler and the verifier. */
  method DrawFrom(p: seq<real>, u: real) returns (t: nat)
    ensures t == Draw(p, u)
    ensures IsDist(p) && 0.0 <= u < 1.0 ==> t < |p| && p[t] > 0.0
  {
    if IsDist(p) && 0.0 <= u < 1.0 { DrawSupport(p, u); }
    var r := u;
    var last := 0;
    var i := 0;
    while i < |p|
      invariant i <= |p|
      invariant Draw(p, u) == DrawScan(p, i, r, last)
    {
      if p[i] > 0.0 {
        last := i;
        r := r - p[i];
        if r <= 0.0 { return i; }
      }
      i := i + 1;
    }
    return last;
  }

  lemma CumNext(p: seq<real>, t: nat)
    requires t < |p|
    ensures Cum(p, t + 1) == Cum(p, t) + p[t]
  {
  }

  lemma {:induction false} CumMonotone(p: seq<real>, s: nat, t: nat)
    requires forall i | 0 <= i < |p| :: p[i] >= 0.0
    requires s <= t
    ensures Cum(p, s) <= Cum(p, t)
  {
    if s < t { CumMonotone(p, s, t - 1); }
  }

  lemma {:induction false} DrawScanFinds(p: seq<real>, i: nat, r: real, last: nat, u: real)
    requires IsDist(p) && 0.0 <= u < 1.0 && i <= |p|
    requires r == u - Cum(p, i)
    requires u == 0.0 || Cum(p, i) < u
    requires u == 0.0 ==> Cum(p, i) == 0.0
    ensures var t := DrawScan(p, i, r, last);
            && t < |p| && p[t] > 0.0 && u <= Cum(p, t + 1) && (u > 0.0 ==> Cum(p, t) < u)
    decreases |p| - i
  {
    if i < |p| {
      CumNext(p, i);
      if p[i] <= 0.0 {
        DrawScanFinds(p, i + 1, r, last, u);
      } else if r - p[i] > 0.0 {
        DrawScanFinds(p, i + 1, r - p[i], i, u);
      }
    } else {
      assert false;
    }
  }

  lemma DrawSupport(p: seq<real>, u: real)
    requires IsDist(p) && 0.0 <= u < 1.0
    ensures Draw(p, u) < |p| && p[Draw(p, u)] > 0.0
  {
    DrawScanFinds(p, 0, u, 0, u);
  }

  /** The draws that select `t` are exactly the half-open interval (Cum(t), Cum(t+1)], whose
      length is p[t]: the draw has the distribution it was given. */
  lemma DrawInterval(p: seq<real>, u: real, t: nat)
    requires IsDist(p) && 0.0 < u < 1.0 && t < |p|
    ensures Draw(p, u) == t <==> Cum(p, t) < u <= Cum(p, t + 1)
    ensures Cum(p, t + 1) - Cum(p, t) == p[t]
  {
    DrawScanFinds(p, 0, u, 0, u);
    var d := Draw(p, u);
    CumNext(p, t);
    if Cum(p, t) < u <= Cum(p, t + 1) {
      if d < t {
        CumMonotone(p, d + 1, t);
      } else if t < d {
        CumMonotone(p, t + 1, d);
      }
    }
  }

  // ---- One accept-or-correct step leaves the target distribution unchanged ----

  /** Mean of `v` at the token produced by one accept-or-correct step, the draft token being drawn from `q`. */
  function StepMean(p: seq<real>, q: seq<real>, v: nat -> real): real {
    Expect(q, (d: nat) => Mix(AcceptProb(At(p, d), At(q, d)), v(d), Expect(Residual(p, q), v)))
  }

  function Overlap(p: seq<real>, q: seq<real>): real {
    SumTo((d: nat) => Min(At(p, d), At(q, d)), |p|)
  }

  /** Whatever target mass the draft does not cover is the residual's weight. */
  lemma OverlapComplement(p: seq<real>, q: seq<real>)
    requires IsDist(p)
    ensures Overlap(p, q) + ExcessMass(p, q) == 1.0
    ensures ExcessMass(p, q) >= 0.0
    ensures ExcessMass(p, q) == 0.0 ==> forall i: nat | i < |p| :: Excess(At(p, i), At(q, i)) == 0.0
  {
    var f, g, h := (d: nat) => Min(At(p, d), At(q, d)), (i: nat) => Excess(At(p, i), At(q, i)), (i: nat) => At(p, i);
    SumAdd(f, g, h, |p|);
    SumNonneg(g, |p|);
    forall i: nat | i < |p| ensures Excess(At(p, i), At(q, i)) == g(i) <= SumTo(g, |p|) {
    }
    assert SumTo(f, |p|) == Overlap(p, q) && SumTo(g, |p|) == ExcessMass(p, q) && SumTo(h, |p|) == Mass(p);
  }

  lemma ScaleBack(e: real, s: real, v: real)
    requires s > 0.0
    ensures Mul(e, v) == Mul(s, Mul(e / s, v))
  {
    MulLaws(s, e / s, v);
    assert Mul(s, e / s) == e;
  }

  /** The residual weight times the residual mean is the part of the target mean that the overlap misses. */
  lemma ResidualMean(p: seq<real>, q: seq<real>, v: nat -> real)
    requires IsDist(p)
    ensures Mul(ExcessMass(p, q), Expect(Residual(p, q), v))
         == SumTo((i: nat) => Mul(Excess(At(p, i), At(q, i)), v(i)), |p|)
  {
    OverlapComplement(p, q);
    var s := ExcessMass(p, q);
    var r := Residual(p, q);
    var f, g := (i: nat) => Mul(At(r, i), v(i)), (i: nat) => Mul(Excess(At(p, i), At(q, i)), v(i));
    if s > 0.0 {
      forall i: nat | i < |p| ensures g(i) == Mul(s, f(i)) {
        ScaleBack(Excess(At(p, i), At(q, i)), s, v(i));
      }
      SumScale(s, f, g, |p|);
      assert SumTo(f, |r|) == Expect(r, v);
    } else {
      forall i: nat | i < |p| ensures g(i) == 0.0 { MulLaws(v(i), 0.0, 0.0); }
      SumPad(g, 0, |p|);
      MulLaws(Expect(r, v), 0.0, 0.0);
    }
  }

  /** A drafted token, weighted: either it is accepted, or its rejected weight goes to the residual. */
  lemma StepTerm(p: real, q: real, v: real, r: real)
    requires 0.0 <= p && 0.0 <= q
    ensures Mul(q, Mix(AcceptProb(p, q), v, r)) == Mul(Min(p, q), v) + Mul(r, q - Min(p, q))
  {
    AcceptMeasure(p, q, 0.0);
    var a := AcceptProb(p, q);
    MulLaws(q, Mul(a, v), Mul(1.0 - a, r));
    MulLaws(q, a, v);
    MulLaws(q, 1.0 - a, r);
    MulLaws(q, 1.0, -a);
    MulLaws(Mul(q, 1.0 - a), r, 0.0);
    assert Mul(q, a) == Min(p, q);
    assert Mul(q, 1.0 - a) == q - Min(p, q);
  }

  /** The weight of the draft tokens that are not accepted is the residual's weight. */
  lemma RejectMass(p: seq<real>, q: seq<real>)
    requires IsDist(p) && IsDist(q) && |q| <= |p|
    ensures SumTo((d: nat) => At(q, d) - Min(At(p, d), At(q, d)), |p|) == ExcessMass(p, q)
  {
    var only := (d: nat) => At(q, d) - Min(At(p, d), At(q, d));
    var over := (d: nat) => Min(At(p, d), At(q, d));
    var draft := (d: nat) => At(q, d);
    SumAdd(only, over, draft, |p|);
    SumPad(draft, |q|, |p|);
    assert SumTo(draft, |q|) == Mass(q);
    OverlapComplement(p, q);
    assert SumTo(over, |p|) == Overlap(p, q);
    assert SumTo(only, |p|) == SumTo((d: nat) => At(q, d) - Min(At(p, d), At(q, d)), |p|);
  }

  /** Accepted and corrected tokens, summed apart. */
  lemma StepSplit(p: seq<real>, q: seq<real>, v: nat -> real)
    requires IsDist(p) && IsDist(q) && |q| <= |p|
    ensures StepMean(p, q, v) == SumTo((d: nat) => Mul(Min(At(p, d), At(q, d)), v(d)), |p|)
                                 + Mul(Expect(Residual(p, q), v), ExcessMass(p, q))
  {
    var r := Expect(Residual(p, q), v);
    var step := (d: nat) => Mul(At(q, d), Mix(AcceptProb(At(p, d), At(q, d)), v(d), r));
    var both := (d: nat) => Mul(Min(At(p, d), At(q, d)), v(d));
    var only := (d: nat) => At(q, d) - Min(At(p, d), At(q, d));
    var rest := (d: nat) => Mul(r, only(d));
    forall d: nat | d < |p| ensures step(d) == both(d) + rest(d) {
      StepTerm(At(p, d), At(q, d), v(d), r);
    }
    SumAdd(both, rest, step, |p|);
    SumScale(r, only, rest, |p|);
    RejectMass(p, q);
    forall d: nat | |q| <= d < |p| ensures step(d) == 0.0 {
      MulLaws(Mix(AcceptProb(At(p, d), At(q, d)), v(d), r), 0.0, 0.0);
    }
    SumPad(step, |q|, |p|);
    assert SumTo(step, |q|) == StepMean(p, q, v) by {
      SumExt(step, (i: nat) => Mul(At(q, i),
                                   ((d: nat) => Mix(AcceptProb(At(p, d), At(q, d)), v(d),
                                                    Expect(Residual(p, q), v)))(i)), |q|);
    }
  }

  /** The one-step law, for every draft distribution over a vocabulary no larger than the target's,
      the empty residual included. */
  lemma StepIsLossless(p: seq<real>, q: seq<real>, v: nat -> real)
    requires IsDist(p) && IsDist(q) && |q| <= |p|
    ensures StepMean(p, q, v) == Expect(p, v)
  {
    var both := (d: nat) => Mul(Min(At(p, d), At(q, d)), v(d));
    var extra := (i: nat) => Mul(Excess(At(p, i), At(q, i)), v(i));
    var goal := (i: nat) => Mul(At(p, i), v(i));
    forall d: nat | d < |p| ensures goal(d) == both(d) + extra(d) {
      assert At(p, d) == Min(At(p, d), At(q, d)) + Excess(At(p, d), At(q, d));
      MulLaws(v(d), Min(At(p, d), At(q, d)), Excess(At(p, d), At(q, d)));
      MulLaws(At(p, d), v(d), 0.0);
      MulLaws(Excess(At(p, d), At(q, d)), v(d), 0.0);
    }
    SumAdd(both, extra, goal, |p|);
    StepSplit(p, q, v);
    ResidualMean(p, q, v);
    MulLaws(Expect(Residual(p, q), v), ExcessMass(p, q), 0.0);
    assert SumTo(goal, |p|) == Expect(p, v);
  }
}
