/**
 The sampling loops as programs over random draws. Their means are the values of `LosslessRun`, so what is
 proved there about means holds of the programs: `SameDistribution` says that the speculative loop and plain
 sampling are programs with the same mean of every quantity computed from what they deliver.
 */
module SampledRun {
  import opened Sums
  import opened Acceptance
  import opened DraftPolicy
  import opened Generation
  import opened LosslessRun
  import opened Draws

  // ---- Verification ----

  /** Verifying the draft `d` from text `h`, and going on with the tokens accepted and the text reached. */
  function VerifyTree(p: Text -> seq<real>, q: Text -> seq<real>, h: Text, d: seq<nat>, acc: nat,
                      go: (nat, Text) -> Tree): Tree
    decreases |d|
  {
    if d == [] then go(acc, h)
    else
      TestNode(AcceptProb(At(p(h), d[0]), At(q(h), d[0])),
               VerifyTree(p, q, h + [d[0]], d[1..], acc + 1, go),
               DrawNode(true, Residual(p(h), q(h)), (t: nat) => go(acc, h + [t])))
  }

  lemma {:induction false} VerifyTreeMean(p: Text -> seq<real>, q: Text -> seq<real>, h0: Text, h: Text, d: seq<nat>,
                                          acc: nat, go: (nat, Text) -> Tree, f: (nat, Text) -> real)
    requires h0 <= h && (d == [] ==> h0 < h)
    requires forall k: nat, x: Text | h0 < x :: f(k, x) == Mean(go(k, x))
    ensures Mean(VerifyTree(p, q, h, d, acc, go)) == VerifyMean(p, q, h, d, acc, f)
    decreases |d|
  {
    hide Mean, Expect, Residual, DrawNode, TestNode;
    if d != [] {
      VerifyTreeMean(p, q, h0, h + [d[0]], d[1..], acc + 1, go, f);
      var child, v := (t: nat) => go(acc, h + [t]), (t: nat) => f(acc, h + [t]);
      DrawNodeMean(true, Residual(p(h), q(h)), child, v);
      TestNodeMean(AcceptProb(At(p(h), d[0]), At(q(h), d[0])), VerifyTree(p, q, h + [d[0]], d[1..], acc + 1, go),
                   DrawNode(true, Residual(p(h), q(h)), child));
    }
  }

  lemma {:induction false} VerifyTreeValid(p: Text -> seq<real>, q: Text -> seq<real>, h0: Text, h: Text, d: seq<nat>,
                                           acc: nat, go: (nat, Text) -> Tree)
    requires Dists(p, q) && h0 <= h && (d == [] ==> h0 < h)
    requires forall k: nat, x: Text | h0 < x :: ValidTree(go(k, x))
    ensures ValidTree(VerifyTree(p, q, h, d, acc, go))
    decreases |d|
  {
    hide ValidTree, Residual, DrawNode, TestNode;
    if d != [] {
      VerifyTreeValid(p, q, h0, h + [d[0]], d[1..], acc + 1, go);
      ResidualIsDist(p(h), q(h));
      var child := (t: nat) => go(acc, h + [t]);
      DrawNodeValid(true, Residual(p(h), q(h)), child);
      AcceptMeasure(At(p(h), d[0]), At(q(h), d[0]), 0.0);
      TestNodeValid(AcceptProb(At(p(h), d[0]), At(q(h), d[0])), VerifyTree(p, q, h + [d[0]], d[1..], acc + 1, go),
                    DrawNode(true, Residual(p(h), q(h)), child));
    }
  }

  // ---- Rounds ----

  /** A round: the draft is rolled out, each token drawn or, by a source that proposes without drawing, read off its
      one-hot distribution; then it is verified. */
  function RoundTree(p: Text -> seq<real>, q: Text -> seq<real>, more: Text -> bool, fails: Text -> bool, drawn: bool,
                     h: Text, d: seq<nat>, n: nat, go: (nat, nat, Text) -> Tree, aborted: Tree): Tree
    decreases n
  {
    if n == 0 || (d != [] && !more(h + d)) then VerifyTree(p, q, h, d, 0, (acc: nat, x: Text) => go(|d|, acc, x))
    else if fails(h + d) then aborted
    else if drawn then DrawNode(false, q(h + d),
                                (t: nat) => RoundTree(p, q, more, fails, drawn, h, d + [t], n - 1, go, aborted))
    else RoundTree(p, q, more, fails, drawn, h, d + [Argmax(q(h + d))], n - 1, go, aborted)
  }

  /** A source that does not draw puts all the mass on one token. */
  ghost predicate Proposes(q: Text -> seq<real>, drawn: bool) {
    !drawn ==> forall x: Text :: q(x) != [] && q(x) == OneHot(|q(x)|, Argmax(q(x)))
  }

  lemma ExpectOneHot(n: nat, a: nat, v: nat -> real)
    requires a < n
    ensures Expect(OneHot(n, a), v) == v(a)
  {
    OneHotIsDist(n, a);
    ExpectSupport(OneHot(n, a), v, (t: nat) => v(a));
    ExpectConst(OneHot(n, a), (t: nat) => v(a), v(a));
  }

  lemma {:induction false} RoundTreeMean(p: Text -> seq<real>, q: Text -> seq<real>, more: Text -> bool,
                                         fails: Text -> bool, drawn: bool, h: Text, d: seq<nat>, n: nat,
                                         go: (nat, nat, Text) -> Tree, f: (nat, nat, Text) -> real, aborted: Tree)
    requires Proposes(q, drawn) && (n > 0 || d != [])
    requires forall m: nat, k: nat, x: Text | h < x :: f(m, k, x) == Mean(go(m, k, x))
    ensures Mean(RoundTree(p, q, more, fails, drawn, h, d, n, go, aborted))
              == RolloutMean(p, q, more, fails, h, d, n, f, Mean(aborted))
    decreases n
  {
    hide Mean, Expect, VerifyTree, VerifyMean, DrawNode;
    if n == 0 || (d != [] && !more(h + d)) {
      VerifyTreeMean(p, q, h, h, d, 0, (acc: nat, x: Text) => go(|d|, acc, x), (acc: nat, x: Text) => f(|d|, acc, x));
    } else if !fails(h + d) {
      forall t: nat { RoundTreeMean(p, q, more, fails, drawn, h, d + [t], n - 1, go, f, aborted); }
      var v := (t: nat) => RolloutMean(p, q, more, fails, h, d + [t], n - 1, f, Mean(aborted));
      if drawn {
        DrawNodeMean(false, q(h + d), (t: nat) => RoundTree(p, q, more, fails, drawn, h, d + [t], n - 1, go, aborted),
                     v);
      } else {
        ExpectOneHot(|q(h + d)|, Argmax(q(h + d)), v);
      }
    }
  }

  lemma {:induction false} RoundTreeValid(p: Text -> seq<real>, q: Text -> seq<real>, more: Text -> bool,
                                          fails: Text -> bool, drawn: bool, h: Text, d: seq<nat>, n: nat,
                                          go: (nat, nat, Text) -> Tree, aborted: Tree)
    requires Dists(p, q) && ValidTree(aborted) && (n > 0 || d != [])
    requires forall m: nat, k: nat, x: Text | h < x :: ValidTree(go(m, k, x))
    ensures ValidTree(RoundTree(p, q, more, fails, drawn, h, d, n, go, aborted))
    decreases n
  {
    hide ValidTree, VerifyTree, DrawNode;
    if n == 0 || (d != [] && !more(h + d)) {
      VerifyTreeValid(p, q, h, h, d, 0, (acc: nat, x: Text) => go(|d|, acc, x));
    } else if !fails(h + d) {
      forall t: nat { RoundTreeValid(p, q, more, fails, drawn, h, d + [t], n - 1, go, aborted); }
      if drawn {
        DrawNodeValid(false, q(h + d), (t: nat) => RoundTree(p, q, more, fails, drawn, h, d + [t], n - 1, go, aborted));
      }
    }
  }

  // ---- Whole generations ----

  /** Plain sampling. */
  function PlainTree(r: Run, h: Text): Tree
    decreases Left(r, h)
  {
    if Done(r, h) then Leaf(r.payoff(h))
    else DrawNode(false, r.p(h), (t: nat) => PlainTree(r, h + [t]))
  }

  /** The speculative loop from text `h` in adaptive state `s`. */
  function SpecTree(r: Run, src: Source, drawn: bool, c: Config, h: Text, s: Policy): Tree
    decreases Left(r, h)
  {
    var n := DraftCount(r, s, h);
    if Done(r, h) then Leaf(r.payoff(h))
    else if !s.active || !src.more(h, n, h) then
      DrawNode(false, r.p(h), (t: nat) => SpecTree(r, src, drawn, c, h + [t],
                                                   s.(active := s.active && src.keepArmed(h))))
    else
      RoundTree(r.p, Within(src.q, h, n), Within(src.more, h, n), Within(src.fails, h, n), drawn, h, [], n,
                (m: nat, acc: nat, x: Text) =>
                  if |x| > |h| then SpecTree(r, src, drawn, c, Cut(r, x, |h| + 1), AfterRound(c, s, m, acc))
                      else Leaf(0.0),
                DrawNode(false, r.p(h), (t: nat) => SpecTree(r, src, drawn, c, h + [t], s.(active := false))))
  }

  ghost predicate ProposesAll(src: Source, drawn: bool) {
    !drawn ==> forall h: Text, n: nat, x: Text ::
                 src.q(h, n, x) != [] && src.q(h, n, x) == OneHot(|src.q(h, n, x)|, Argmax(src.q(h, n, x)))
  }

  lemma {:induction false} PlainTreeMean(r: Run, h: Text)
    requires forall x: Text :: IsDist(r.p(x))
    ensures ValidTree(PlainTree(r, h)) && Mean(PlainTree(r, h)) == PlainValue(r, h)
    decreases Left(r, h)
  {
    hide Mean, Expect, DrawNode;
    if Done(r, h) {
      LeafFacts(r.payoff(h));
    } else {
      forall t: nat { PlainTreeMean(r, h + [t]); }
      DrawNodeMean(false, r.p(h), (t: nat) => PlainTree(r, h + [t]), (t: nat) => PlainValue(r, h + [t]));
      DrawNodeValid(false, r.p(h), (t: nat) => PlainTree(r, h + [t]));
    }
  }

  lemma LeafFacts(v: real)
    ensures ValidTree(Leaf(v)) && Mean(Leaf(v)) == v
  {
  }

  /** The speculative loop is a program whose mean is its value. */
  lemma {:induction false} SpecTreeMean(r: Run, src: Source, drawn: bool, c: Config, h: Text, s: Policy)
    requires ValidRun(r, src) && ProposesAll(src, drawn)
    ensures ValidTree(SpecTree(r, src, drawn, c, h, s))
              && Mean(SpecTree(r, src, drawn, c, h, s)) == SpecValue(r, src, c, h, s)
    decreases Left(r, h)
  {
    hide Mean, Expect, DrawNode, RoundTree, RolloutMean, ValidTree, AfterRound;
    var n := DraftCount(r, s, h);
    if Done(r, h) {
      LeafFacts(r.payoff(h));
    } else if !s.active || !src.more(h, n, h) {
      PlainStepMean(r, src, drawn, c, h, s, s.active && src.keepArmed(h));
    } else {
      PlainStepMean(r, src, drawn, c, h, s, false);
      SpecRoundMean(r, src, drawn, c, h, s);
    }
  }

  lemma {:induction false} PlainStepMean(r: Run, src: Source, drawn: bool, c: Config, h: Text, s: Policy, armed: bool)
    requires ValidRun(r, src) && ProposesAll(src, drawn) && !Done(r, h)
    ensures var node := DrawNode(false, r.p(h), (t: nat) => SpecTree(r, src, drawn, c, h + [t], s.(active := armed)));
            && ValidTree(node)
            && Mean(node) == Expect(r.p(h), (t: nat) => SpecValue(r, src, c, h + [t], s.(active := armed)))
    decreases Left(r, h), 0
  {
    hide Mean, Expect, DrawNode, ValidTree;
    var child := (t: nat) => SpecTree(r, src, drawn, c, h + [t], s.(active := armed));
    var v := (t: nat) => SpecValue(r, src, c, h + [t], s.(active := armed));
    forall t: nat { SpecTreeMean(r, src, drawn, c, h + [t], s.(active := armed)); }
    DrawNodeMean(false, r.p(h), child, v);
    DrawNodeValid(false, r.p(h), child);
  }

  lemma {:induction false} SpecRoundMean(r: Run, src: Source, drawn: bool, c: Config, h: Text, s: Policy)
    requires ValidRun(r, src) && ProposesAll(src, drawn) && !Done(r, h) && s.active
               && src.more(h, DraftCount(r, s, h), h)
    requires var aborted := DrawNode(false, r.p(h),
                                     (t: nat) => SpecTree(r, src, drawn, c, h + [t], s.(active := false)));
             && ValidTree(aborted)
             && Mean(aborted) == Expect(r.p(h), (t: nat) => SpecValue(r, src, c, h + [t], s.(active := false)))
    ensures ValidTree(SpecTree(r, src, drawn, c, h, s))
              && Mean(SpecTree(r, src, drawn, c, h, s)) == SpecValue(r, src, c, h, s)
    decreases Left(r, h), 0
  {
    hide Mean, Expect, DrawNode, RoundTree, RolloutMean, ValidTree, AfterRound;
    var n := DraftCount(r, s, h);
    var q, more, fails := Within(src.q, h, n), Within(src.more, h, n), Within(src.fails, h, n);
    var aborted := DrawNode(false, r.p(h), (t: nat) => SpecTree(r, src, drawn, c, h + [t], s.(active := false)));
    var go := (m: nat, acc: nat, x: Text) =>
        if |x| > |h| then SpecTree(r, src, drawn, c, Cut(r, x, |h| + 1), AfterRound(c, s, m, acc)) else Leaf(0.0);
    var f := (m: nat, acc: nat, x: Text) =>
        if |x| > |h| then SpecValue(r, src, c, Cut(r, x, |h| + 1), AfterRound(c, s, m, acc)) else 0.0;
    forall m: nat, acc: nat, x: Text | h < x ensures ValidTree(go(m, acc, x)) && f(m, acc, x) == Mean(go(m, acc, x)) {
      SpecTreeMean(r, src, drawn, c, Cut(r, x, |h| + 1), AfterRound(c, s, m, acc));
    }
    RoundDists(r, src, h, n);
    assert Proposes(q, drawn);
    RoundTreeMean(r.p, q, more, fails, drawn, h, [], n, go, f, aborted);
    RoundTreeValid(r.p, q, more, fails, drawn, h, [], n, go, aborted);
  }

  /** The speculative loop and plain sampling are programs over independent uniform draws with the same mean, whatever
      is measured of what they deliver, unless draft failures depend on what was drafted. */
  lemma SameDistribution(r: Run, src: Source, drawn: bool, c: Config, h: Text, s: Policy)
    requires ValidRun(r, src) && ProposesAll(src, drawn) && ValidConfig(c) && ValidPolicy(c, s) && FailuresBlind(src, c)
    ensures ValidTree(SpecTree(r, src, drawn, c, h, s)) && ValidTree(PlainTree(r, h))
    ensures Mean(SpecTree(r, src, drawn, c, h, s)) == Mean(PlainTree(r, h))
  {
    SpecTreeMean(r, src, drawn, c, h, s);
    PlainTreeMean(r, h);
    SpeculationIsLossless(r, src, c, h, s);
  }
}
