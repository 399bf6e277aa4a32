/**
 Draft models that fail in the middle of a rollout. The decoder throws the partial draft away and takes a
 plain step, so which drafts are verified depends on where the model fails, and the law of the output may change.

 `LosslessExactly` says when it does not: speculation is lossless, for every target, budget, callback and payoff,
 if and only if at every text the abort of a round is either certain or impossible. Greedy drafting always
 meets this, and so does a model that only fails before its first token. `EosBias` is a source that does not.
 */
module DraftFailures {
  import opened Sums
  import opened Acceptance
  import opened DraftPolicy
  import opened LosslessRun

  // ---- Drafts that survive ----

  /** Drafting `y` from `h` can happen, and no pass on the way fails. */
  ghost predicate Drafts(q: Text -> seq<real>, more: Text -> bool, fails: Text -> bool, h: Text, y: seq<nat>) {
    forall i | 0 <= i < |y| ::
      && !fails(h + y[..i]) && (i > 0 ==> more(h + y[..i]))
      && y[i] < |q(h + y[..i])| && q(h + y[..i])[y[i]] > 0.0
  }

  /** `y` is a whole draft of a round of up to `n` tokens. */
  ghost predicate Survives(q: Text -> seq<real>, more: Text -> bool, fails: Text -> bool, h: Text, y: seq<nat>,
                           n: nat) {
    Drafts(q, more, fails, h, y) && 0 < |y| <= n && (|y| == n || !more(h + y))
  }

  lemma DraftsNext(q: Text -> seq<real>, more: Text -> bool, fails: Text -> bool, h: Text, d: seq<nat>, t: nat)
    requires Drafts(q, more, fails, h, d) && !fails(h + d) && (d != [] ==> more(h + d))
    requires t < |q(h + d)| && q(h + d)[t] > 0.0
    ensures Drafts(q, more, fails, h, d + [t])
  {
    var y := d + [t];
    forall i | 0 <= i < |y|
      ensures !fails(h + y[..i]) && (i > 0 ==> more(h + y[..i])) && y[i] < |q(h + y[..i])| && q(h + y[..i])[y[i]] > 0.0
    {
      assert y[..i] == if i < |d| then d[..i] else d;
    }
  }

  /** A round that may escape being aborted has a draft that does. */
  lemma {:induction false} Survivor(q: Text -> seq<real>, more: Text -> bool, fails: Text -> bool, h: Text,
                                    d: seq<nat>, n: nat)
    returns (y: seq<nat>)
    requires forall x: Text :: IsDist(q(x))
    requires Drafts(q, more, fails, h, d) && |d| + n > 0 && AbortChance(q, more, fails, h, d, n) < 1.0
    ensures Survives(q, more, fails, h, y, |d| + n)
    decreases n
  {
    if n == 0 || (d != [] && !more(h + d)) {
      y := d;
    } else {
      forall t: nat { AbortChanceBounds(q, more, fails, h, d + [t], n - 1); }
      var next := (t: nat) => AbortChance(q, more, fails, h, d + [t], n - 1);
      if forall t: nat | t < |q(h + d)| && q(h + d)[t] != 0.0 :: next(t) == 1.0 {
        ExpectSupport(q(h + d), next, (t: nat) => 1.0);
        ExpectConst(q(h + d), (t: nat) => 1.0, 1.0);
      }
      var t: nat :| t < |q(h + d)| && q(h + d)[t] != 0.0 && next(t) != 1.0;
      DraftsNext(q, more, fails, h, d, t);
      y := Survivor(q, more, fails, h, d + [t], n - 1);
    }
  }

  /** The probability of drafting the rest of `y`, its first `i` tokens being drafted. */
  function PathChance(q: Text -> seq<real>, h: Text, y: seq<nat>, i: nat): real
    requires i <= |y|
    decreases |y| - i
  {
    if i == |y| then 1.0 else Mul(At(q(h + y[..i]), y[i]), PathChance(q, h, y, i + 1))
  }

  lemma {:induction false} PathPositive(q: Text -> seq<real>, more: Text -> bool, fails: Text -> bool, h: Text,
                                        y: seq<nat>, i: nat)
    requires Drafts(q, more, fails, h, y) && i <= |y|
    ensures PathChance(q, h, y, i) > 0.0
    decreases |y| - i
  {
    if i < |y| {
      PathPositive(q, more, fails, h, y, i + 1);
      MulPositive(At(q(h + y[..i]), y[i]), PathChance(q, h, y, i + 1));
    }
  }

  // ---- Values that are never negative ----

  lemma {:induction false} VerifyNonneg(p: Text -> seq<real>, q: Text -> seq<real>, h: Text, d: seq<nat>, acc: nat,
                                        f: (nat, Text) -> real)
    requires Dists(p, q) && forall k: nat, x: Text :: f(k, x) >= 0.0
    ensures VerifyMean(p, q, h, d, acc, f) >= 0.0
    decreases |d|
  {
    if d != [] {
      VerifyNonneg(p, q, h + [d[0]], d[1..], acc + 1, f);
      ResidualIsDist(p(h), q(h));
      ExpectVanishes(Residual(p(h), q(h)), (t: nat) => f(acc, h + [t]));
      var a := AcceptProb(At(p(h), d[0]), At(q(h), d[0]));
      AcceptMeasure(At(p(h), d[0]), At(q(h), d[0]), 0.0);
      MulPositive(a, VerifyMean(p, q, h + [d[0]], d[1..], acc + 1, f));
      MulPositive(1.0 - a, Expect(Residual(p(h), q(h)), (t: nat) => f(acc, h + [t])));
    }
  }

  /** A round is worth at least what its aborts are. */
  lemma {:induction false} RolloutAtLeastAborts(p: Text -> seq<real>, q: Text -> seq<real>, more: Text -> bool,
                                                fails: Text -> bool, h: Text, d: seq<nat>, n: nat,
                                                f: (nat, nat, Text) -> real, aborted: real)
    requires Dists(p, q) && forall m: nat, k: nat, x: Text :: f(m, k, x) >= 0.0
    ensures RolloutMean(p, q, more, fails, h, d, n, f, aborted) >= Mul(aborted, AbortChance(q, more, fails, h, d, n))
    decreases n
  {
    if n == 0 || (d != [] && !more(h + d)) {
      VerifyNonneg(p, q, h, d, 0, (acc: nat, x: Text) => f(|d|, acc, x));
      MulLaws(aborted, 0.0, 0.0);
    } else if fails(h + d) {
      MulLaws(aborted, 1.0, 0.0);
    } else {
      var v := (t: nat) => AbortChance(q, more, fails, h, d + [t], n - 1);
      var w := (t: nat) => Mul(aborted, v(t));
      forall t: nat { RolloutAtLeastAborts(p, q, more, fails, h, d + [t], n - 1, f, aborted); }
      ExpectMonotone(q(h + d), w, (t: nat) => RolloutMean(p, q, more, fails, h, d + [t], n - 1, f, aborted));
      ExpectAffine(q(h + d), v, w, aborted, 0.0);
    }
  }

  lemma {:induction false} SpecNonneg(r: Run, src: Source, c: Config, h: Text, s: Policy)
    requires ValidRun(r, src) && forall x: Text :: r.payoff(x) >= 0.0
    ensures SpecValue(r, src, c, h, s) >= 0.0
    decreases Left(r, h)
  {
    if !Done(r, h) {
      var n := DraftCount(r, s, h);
      assert IsDist(r.p(h));
      if !s.active || !src.more(h, n, h) {
        var s' := s.(active := s.active && src.keepArmed(h));
        forall t: nat { SpecNonneg(r, src, c, h + [t], s'); }
        ExpectVanishes(r.p(h), (t: nat) => SpecValue(r, src, c, h + [t], s.(active := s.active && src.keepArmed(h))));
      } else {
        var aborted := Expect(r.p(h), (t: nat) => SpecValue(r, src, c, h + [t], s.(active := false)));
        forall t: nat { SpecNonneg(r, src, c, h + [t], s.(active := false)); }
        ExpectVanishes(r.p(h), (t: nat) => SpecValue(r, src, c, h + [t], s.(active := false)));
        var f := (m: nat, acc: nat, x: Text) =>
            if |x| > |h| then SpecValue(r, src, c, Cut(r, x, |h| + 1), AfterRound(c, s, m, acc)) else 0.0;
        forall m: nat, acc: nat, x: Text ensures f(m, acc, x) >= 0.0 {
          if |x| > |h| { SpecNonneg(r, src, c, Cut(r, x, |h| + 1), AfterRound(c, s, m, acc)); }
        }
        RoundDists(r, src, h, n);
        var q, more, fails := Within(src.q, h, n), Within(src.more, h, n), Within(src.fails, h, n);
        RolloutAtLeastAborts(r.p, q, more, fails, h, [], n, f, aborted);
        AbortChanceBounds(q, more, fails, h, [], n);
        MulPositive(aborted, AbortChance(q, more, fails, h, [], n));
      }
    }
  }

  // ---- A source against itself ----

  /** A target that agrees with the draft accepts everything. */
  lemma {:induction false} AllAccepted(p: Text -> seq<real>, h: Text, d: seq<nat>, acc: nat, f: (nat, Text) -> real)
    requires forall i | 0 <= i < |d| :: At(p(h + d[..i]), d[i]) > 0.0
    ensures VerifyMean(p, p, h, d, acc, f) == f(acc + |d|, h + d)
    decreases |d|
  {
    hide Residual, Expect, Mul;
    if d != [] {
      assert d[..0] == [] && h + [] == h;
      var h1, d1 := h + [d[0]], d[1..];
      forall i | 0 <= i < |d1| ensures At(p(h1 + d1[..i]), d1[i]) > 0.0 {
        assert h1 + d1[..i] == h + d[..i + 1];
      }
      AllAccepted(p, h1, d1, acc + 1, f);
      assert h1 + d1 == h + d;
      var rest := Expect(Residual(p(h), p(h)), (t: nat) => f(acc, h + [t]));
      MulLaws(f(acc + |d|, h + d), 0.0, 0.0);
      MulLaws(rest, 0.0, 0.0);
    } else {
      assert h + d == h;
    }
  }

  /** What surviving means at one token of a draft. */
  lemma SurvivesAt(q: Text -> seq<real>, more: Text -> bool, fails: Text -> bool, h: Text, y: seq<nat>, n: nat, i: nat)
    requires Survives(q, more, fails, h, y, n) && i < |y|
    ensures !fails(h + y[..i]) && (i > 0 ==> more(h + y[..i])) && i < n
    ensures y[i] < |q(h + y[..i])| && y[..i] + [y[i]] == y[..i + 1]
  {
  }

  /** The end of a surviving draft: it is verified, and accepted whole. */
  lemma RolloutAtEnd(q: Text -> seq<real>, more: Text -> bool, fails: Text -> bool, h: Text, y: seq<nat>, n: nat,
                     f: (nat, nat, Text) -> real, aborted: real)
    requires Survives(q, more, fails, h, y, n)
    ensures RolloutMean(q, q, more, fails, h, y, n - |y|, f, aborted) == f(|y|, |y|, h + y)
    ensures AbortChance(q, more, fails, h, y, n - |y|) == 0.0
  {
    hide VerifyMean, Expect;
    AllAccepted(q, h, y, 0, (acc: nat, x: Text) => f(|y|, acc, x));
  }

  /** A round under way, whose next token is drafted, is worth the mean over that token. */
  lemma RolloutUnderWay(q: Text -> seq<real>, more: Text -> bool, fails: Text -> bool, h: Text, d: seq<nat>, n: nat,
                        f: (nat, nat, Text) -> real, aborted: real)
    requires n > 0 && (d != [] ==> more(h + d)) && !fails(h + d)
    ensures RolloutMean(q, q, more, fails, h, d, n, f, aborted)
         == Expect(q(h + d), (t: nat) => RolloutMean(q, q, more, fails, h, d + [t], n - 1, f, aborted))
    ensures AbortChance(q, more, fails, h, d, n)
         == Expect(q(h + d), (t: nat) => AbortChance(q, more, fails, h, d + [t], n - 1))
  {
    hide Expect, VerifyMean;
  }

  /** Against itself, a source's round is worth its aborts and, on top, the chance of drafting any one draft worth 1. */
  lemma {:induction false} RolloutAtLeastPath(q: Text -> seq<real>, more: Text -> bool, fails: Text -> bool, h: Text,
                                              y: seq<nat>, n: nat, i: nat, f: (nat, nat, Text) -> real, aborted: real)
    requires Dists(q, q) && Survives(q, more, fails, h, y, n) && i <= |y| <= n
    requires forall m: nat, k: nat, x: Text :: f(m, k, x) >= 0.0
    requires f(|y|, |y|, h + y) == 1.0
    ensures RolloutMean(q, q, more, fails, h, y[..i], n - i, f, aborted)
         >= Mul(aborted, AbortChance(q, more, fails, h, y[..i], n - i)) + PathChance(q, h, y, i)
    decreases |y| - i
  {
    hide RolloutMean, AbortChance, Survives, Expect, Mul, IsDist;
    var d := y[..i];
    if i == |y| {
      assert d == y;
      RolloutAtEnd(q, more, fails, h, y, n, f, aborted);
      MulLaws(aborted, 0.0, 0.0);
    } else {
      SurvivesAt(q, more, fails, h, y, n, i);
      RolloutAtLeastPath(q, more, fails, h, y, n, i + 1, f, aborted);
      var v := (t: nat) => AbortChance(q, more, fails, h, d + [t], n - i - 1);
      var w := (t: nat) => Mul(aborted, v(t)) + if t == y[i] then PathChance(q, h, y, i + 1) else 0.0;
      var all := (t: nat) => RolloutMean(q, q, more, fails, h, d + [t], n - i - 1, f, aborted);
      forall t: nat ensures w(t) <= all(t) {
        if t != y[i] { RolloutAtLeastAborts(q, q, more, fails, h, d + [t], n - i - 1, f, aborted); }
      }
      ExpectMonotone(q(h + d), w, all);
      ExpectBonus(q(h + d), v, w, aborted, y[i], PathChance(q, h, y, i + 1));
      RolloutUnderWay(q, more, fails, h, d, n - i, f, aborted);
    }
  }

  // ---- The generation that shows a bias ----

  /** A target that agrees with the source, a budget for exactly the draft `y`, and a payoff for nothing else. */
  function Witness(src: Source, h: Text, n: nat, y: seq<nat>): Run {
    Run(Within(src.q, h, n), (x: Text) => false, |h|, |y|, |h| + n, (x: Text) => if x == h + y then 1.0 else 0.0)
  }

  lemma PrefixNext(x: Text, t: nat, z: Text)
    ensures x + [t] <= z ==> x <= z && |x| < |z| && z[|x|] == t
  {
    if x + [t] <= z {
      assert (x + [t])[..|x|] == x == z[..|x|];
      assert (x + [t])[|x|] == t;
    }
  }

  lemma {:induction false} OffPath(src: Source, h: Text, n: nat, y: seq<nat>, x: Text)
    requires 0 < |y| <= n && |x| <= |h| + |y| && !(x <= h + y) && ValidSource(src)
    ensures PlainValue(Witness(src, h, n, y), x) == 0.0
    decreases |h| + |y| - |x|
  {
    var r := Witness(src, h, n, y);
    if !Done(r, x) {
      forall t: nat ensures PlainValue(r, x + [t]) == 0.0 {
        PrefixNext(x, t, h + y);
        OffPath(src, h, n, y, x + [t]);
      }
      assert IsDist(r.p(x)) by { assert IsDist(src.q(h, n, x)); }
      ExpectConst(r.p(x), (t: nat) => PlainValue(r, x + [t]), 0.0);
    }
  }

  /** Plain sampling is paid exactly when it samples the draft. */
  lemma {:induction false} OnPath(src: Source, h: Text, n: nat, y: seq<nat>, i: nat)
    requires 0 < |y| <= n && i <= |y| && ValidSource(src) && forall j | 0 <= j < |y| :: y[j] < src.vocab
    ensures PlainValue(Witness(src, h, n, y), h + y[..i]) == PathChance(Within(src.q, h, n), h, y, i)
    decreases |y| - i
  {
    var r := Witness(src, h, n, y);
    var x := h + y[..i];
    if i == |y| {
      assert x == h + y;
    } else {
      OnPath(src, h, n, y, i + 1);
      assert x + [y[i]] == h + y[..i + 1];
      var v := (t: nat) => PlainValue(r, x + [t]);
      forall t: nat | t != y[i] ensures v(t) == 0.0 {
        PrefixNext(x, t, h + y);
        OffPath(src, h, n, y, x + [t]);
      }
      assert IsDist(src.q(h, n, x)) && |r.p(x)| == src.vocab;
      MulLaws(0.0, 0.0, 0.0);
      ExpectBonus(r.p(x), (t: nat) => 0.0, v, 0.0, y[i], PathChance(Within(src.q, h, n), h, y, i + 1));
    }
  }

  lemma SpecAtEnd(r: Run, src: Source, c: Config, x: Text, s: Policy)
    requires Done(r, x)
    ensures SpecValue(r, src, c, x, s) == r.payoff(x)
  {
    hide RolloutMean, Expect, AfterRound;
  }

  lemma WitnessValid(src: Source, h: Text, n: nat, y: seq<nat>)
    requires ValidSource(src)
    ensures ValidRun(Witness(src, h, n, y), src)
  {
    hide IsDist;
    var r := Witness(src, h, n, y);
    forall x: Text ensures IsDist(r.p(x)) && src.vocab <= |r.p(x)| {
      assert IsDist(src.q(h, n, x)) && |src.q(h, n, x)| == src.vocab;
    }
  }

  /** The witness is a run of the source, its budget is the draft, and only the whole draft is paid. */
  lemma WitnessFacts(src: Source, c: Config, h: Text, n: nat, y: seq<nat>, s: Policy, m: nat, acc: nat)
    requires ValidSource(src) && ValidConfig(c) && 1 <= n <= c.maxDraft && 0 < |y| <= n
               && s == Policy(c.maxDraft, 0, 0, true)
    ensures var r := Witness(src, h, n, y);
            && ValidRun(r, src) && !Done(r, h) && DraftCount(r, s, h) == n
            && SpecValue(r, src, c, Cut(r, h + y, |h| + 1), AfterRound(c, s, m, acc)) == 1.0
  {
    hide AfterRound, SpecValue, ValidRun, ValidSource;
    var r := Witness(src, h, n, y);
    WitnessValid(src, h, n, y);
    NoCut(r, h + y, |h| + 1);
    SpecAtEnd(r, src, c, h + y, AfterRound(c, s, m, acc));
  }

  /** A failure that depends on what was drafted makes the outputs it spares too likely: some generation shows it. */
  lemma FailuresBias(src: Source, c: Config, h: Text, n: nat) returns (r: Run, s: Policy)
    requires ValidSource(src) && ValidConfig(c) && 1 <= n <= c.maxDraft && src.more(h, n, h)
    requires 0.0 < RoundAbortChance(src, h, n) < 1.0
    ensures ValidRun(r, src) && ValidPolicy(c, s) && SpecValue(r, src, c, h, s) > PlainValue(r, h)
  {
    hide IsDist, Expect, AbortChance, PathChance, RolloutMean, AfterRound, PlainValue, Mul, Drafts, Cut;
    var q, more, fails := Within(src.q, h, n), Within(src.more, h, n), Within(src.fails, h, n);
    SourceDists(src, h, n);
    var y := Survivor(q, more, fails, h, [], n);
    r, s := Witness(src, h, n, y), Policy(c.maxDraft, 0, 0, true);
    var aborted := Expect(r.p(h), (t: nat) => SpecValue(r, src, c, h + [t], s.(active := false)));
    var f := (m: nat, acc: nat, x: Text) =>
        if |x| > |h| then SpecValue(r, src, c, Cut(r, x, |h| + 1), AfterRound(c, s, m, acc)) else 0.0;
    WitnessFacts(src, c, h, n, y, s, |y|, |y|);
    forall m: nat, acc: nat, x: Text ensures f(m, acc, x) >= 0.0 {
      if |x| > |h| { SpecNonneg(r, src, c, Cut(r, x, |h| + 1), AfterRound(c, s, m, acc)); }
    }
    RolloutAtLeastPath(q, more, fails, h, y, n, 0, f, aborted);
    AbortIsPlain(r, src, c, h, s);
    assert y[..0] == [] && h + y[..0] == h;
    PathInVocabulary(src, h, n, y);
    OnPath(src, h, n, y, 0);
    PathPositive(q, more, fails, h, y, 0);
    MulPositive(aborted, RoundAbortChance(src, h, n));
  }

  lemma SourceDists(src: Source, h: Text, n: nat)
    requires ValidSource(src)
    ensures Dists(Within(src.q, h, n), Within(src.q, h, n)) && forall x: Text :: IsDist(Within(src.q, h, n)(x))
    ensures Drafts(Within(src.q, h, n), Within(src.more, h, n), Within(src.fails, h, n), h, [])
  {
    forall x: Text ensures IsDist(Within(src.q, h, n)(x)) {
      assert IsDist(src.q(h, n, x));
    }
  }

  lemma PathInVocabulary(src: Source, h: Text, n: nat, y: seq<nat>)
    requires ValidSource(src) && Drafts(Within(src.q, h, n), Within(src.more, h, n), Within(src.fails, h, n), h, y)
    ensures forall j | 0 <= j < |y| :: y[j] < src.vocab
  {
    forall j | 0 <= j < |y| ensures y[j] < src.vocab {
      assert |src.q(h, n, h + y[..j])| == src.vocab;
    }
  }

  /** Nothing is cut from a text that reaches the budget and stops nowhere before. */
  lemma {:induction false} NoCut(r: Run, x: Text, k: nat)
    requires |x| <= Limit(r) && forall z: Text :: !r.stops(z)
    ensures Cut(r, x, k) == x
    decreases |x| - k
  {
    if k < |x| { NoCut(r, x, k + 1); }
  }

  // ---- The exact condition ----

  /** Speculation from every text, in every state, for every target and payoff, is lossless exactly when draft
      failures do not depend on what was drafted. */
  lemma LosslessExactly(src: Source, c: Config)
    requires ValidSource(src) && ValidConfig(c)
    ensures (forall r: Run, h: Text, s: Policy | ValidRun(r, src) && ValidPolicy(c, s) ::
              SpecValue(r, src, c, h, s) == PlainValue(r, h))
       <==> FailuresBlind(src, c)
    ensures FailuresBlind(src, c) <==> OneFate(src, c)
  {
    BlindnessIsOneFate(src, c);
    if FailuresBlind(src, c) {
      forall r: Run, h: Text, s: Policy | ValidRun(r, src) && ValidPolicy(c, s)
        ensures SpecValue(r, src, c, h, s) == PlainValue(r, h)
      {
        SpeculationIsLossless(r, src, c, h, s);
      }
    } else {
      var h: Text, n: nat :| 1 <= n <= c.maxDraft && src.more(h, n, h)
                             && RoundAbortChance(src, h, n) != 0.0 && RoundAbortChance(src, h, n) != 1.0;
      assert forall x: Text :: IsDist(src.q(h, n, x));
      AbortChanceBounds(Within(src.q, h, n), Within(src.more, h, n), Within(src.fails, h, n), h, [], n);
      var r, s := FailuresBias(src, c, h, n);
    }
  }

  /** No draft that can be drawn meets a text the model fails at. */
  ghost predicate NeverFails(src: Source, h: Text, n: nat) {
    var q, more, fails := Within(src.q, h, n), Within(src.more, h, n), Within(src.fails, h, n);
    forall d: seq<nat> | |d| < n && Drafts(q, more, fails, h, d) ::
      (d == [] || src.more(h, n, h + d)) ==> !src.fails(h, n, h + d)
  }

  /** No draft that can be drawn survives. */
  ghost predicate NeverSurvives(src: Source, h: Text, n: nat) {
    forall y: seq<nat> :: !Survives(Within(src.q, h, n), Within(src.more, h, n), Within(src.fails, h, n), h, y, n)
  }

  /** The condition, read off the source: from every text, no draft it can draw fails, or every one does. */
  ghost predicate OneFate(src: Source, c: Config) {
    forall h: Text, n: nat | 1 <= n <= c.maxDraft && src.more(h, n, h) ::
        NeverFails(src, h, n) || NeverSurvives(src, h, n)
  }

  lemma NoneNegative(p: seq<real>)
    requires IsDist(p)
    ensures forall t: nat | t < |p| :: p[t] >= 0.0
  {
  }

  lemma NoFailureAt(src: Source, h: Text, n: nat, d: seq<nat>)
    requires NeverFails(src, h, n) && |d| < n && (d == [] || src.more(h, n, h + d))
    requires Drafts(Within(src.q, h, n), Within(src.more, h, n), Within(src.fails, h, n), h, d)
    ensures !src.fails(h, n, h + d)
  {
    hide Drafts;
  }

  /** A draft on which no failure awaits is never aborted. */
  lemma {:induction false} SafeFrom(src: Source, h: Text, n: nat, d: seq<nat>, m: nat)
    requires ValidSource(src) && NeverFails(src, h, n) && |d| + m == n
    requires Drafts(Within(src.q, h, n), Within(src.more, h, n), Within(src.fails, h, n), h, d)
    ensures AbortChance(Within(src.q, h, n), Within(src.more, h, n), Within(src.fails, h, n), h, d, m) == 0.0
    decreases m
  {
    hide Drafts, NeverFails, Expect, IsDist;
    var q, more, fails := Within(src.q, h, n), Within(src.more, h, n), Within(src.fails, h, n);
    assert IsDist(src.q(h, n, h + d));
    if !(m == 0 || (d != [] && !more(h + d))) {
      NoFailureAt(src, h, n, d);
      NoneNegative(q(h + d));
      var v := (t: nat) => AbortChance(q, more, fails, h, d + [t], m - 1);
      forall t: nat | t < |q(h + d)| && q(h + d)[t] != 0.0 ensures v(t) == 0.0 {
        DraftsNext(q, more, fails, h, d, t);
        SafeFrom(src, h, n, d + [t], m - 1);
      }
      ExpectSupport(q(h + d), v, (t: nat) => 0.0);
      ExpectConst(q(h + d), (t: nat) => 0.0, 0.0);
    }
  }

  /** A draft that meets a failure makes an abort possible, however far it had come. */
  lemma {:induction false} FailureFelt(src: Source, h: Text, n: nat, d: seq<nat>, i: nat)
    requires ValidSource(src) && i <= |d| < n && src.fails(h, n, h + d) && (d == [] || src.more(h, n, h + d))
    requires Drafts(Within(src.q, h, n), Within(src.more, h, n), Within(src.fails, h, n), h, d)
    ensures AbortChance(Within(src.q, h, n), Within(src.more, h, n), Within(src.fails, h, n), h, d[..i], n - i) > 0.0
    decreases |d| - i
  {
    hide Expect, IsDist;
    var q, more, fails := Within(src.q, h, n), Within(src.more, h, n), Within(src.fails, h, n);
    if i == |d| {
      assert d[..i] == d;
    } else {
      var e := d[..i];
      assert e + [d[i]] == d[..i + 1];
      FailureFelt(src, h, n, d, i + 1);
      assert forall x: Text :: IsDist(src.q(h, n, x));
      AbortChanceBounds(q, more, fails, h, e, n - i);
      if AbortChance(q, more, fails, h, e, n - i) == 0.0 { AbortChanceNext(q, more, fails, h, e, n - i, 0.0); }
    }
  }

  /** A draft that survives makes it possible not to be aborted. */
  lemma {:induction false} SurvivalFelt(src: Source, h: Text, n: nat, y: seq<nat>, i: nat)
    requires ValidSource(src) && i <= |y| <= n
    requires Survives(Within(src.q, h, n), Within(src.more, h, n), Within(src.fails, h, n), h, y, n)
    ensures AbortChance(Within(src.q, h, n), Within(src.more, h, n), Within(src.fails, h, n), h, y[..i], n - i) < 1.0
    decreases |y| - i
  {
    hide Expect, IsDist;
    var q, more, fails := Within(src.q, h, n), Within(src.more, h, n), Within(src.fails, h, n);
    if i == |y| {
      assert y[..i] == y;
    } else {
      var e := y[..i];
      SurvivesAt(q, more, fails, h, y, n, i);
      SurvivalFelt(src, h, n, y, i + 1);
      assert forall x: Text :: IsDist(src.q(h, n, x));
      AbortChanceBounds(q, more, fails, h, e, n - i);
      assert q(h + e)[y[i]] > 0.0;
      if AbortChance(q, more, fails, h, e, n - i) == 1.0 { AbortChanceNext(q, more, fails, h, e, n - i, 1.0); }
    }
  }

  lemma ChanceIsFate(src: Source, h: Text, n: nat)
    requires ValidSource(src) && n >= 1
    ensures RoundAbortChance(src, h, n) == 0.0 <==> NeverFails(src, h, n)
    ensures RoundAbortChance(src, h, n) == 1.0 <==> NeverSurvives(src, h, n)
  {
    hide AbortChance, Drafts, IsDist;
    var q, more, fails := Within(src.q, h, n), Within(src.more, h, n), Within(src.fails, h, n);
    SourceDists(src, h, n);
    AbortChanceBounds(q, more, fails, h, [], n);
    if NeverFails(src, h, n) {
      SafeFrom(src, h, n, [], n);
    } else {
      var d: seq<nat> :| |d| < n && Drafts(q, more, fails, h, d) && (d == [] || src.more(h, n, h + d))
          && src.fails(h, n, h + d);
      FailureFelt(src, h, n, d, 0);
      assert d[..0] == [];
    }
    if NeverSurvives(src, h, n) {
      if RoundAbortChance(src, h, n) < 1.0 { var y := Survivor(q, more, fails, h, [], n); }
    } else {
      var y: seq<nat> :| Survives(q, more, fails, h, y, n);
      SurvivalFelt(src, h, n, y, 0);
      assert y[..0] == [];
    }
  }

  /** Whether failures are blind can be read off the drafts a source can draw, without a probability. */
  lemma BlindnessIsOneFate(src: Source, c: Config)
    requires ValidSource(src)
    ensures FailuresBlind(src, c) <==> OneFate(src, c)
  {
    hide RoundAbortChance, NeverFails, NeverSurvives;
    forall h: Text, n: nat | 1 <= n <= c.maxDraft { ChanceIsFate(src, h, n); }
  }

  /** A model that fails, if at all, before its first token is harmless. */
  lemma EarlyFailuresAreBlind(src: Source, c: Config)
    requires ValidSource(src) && forall h: Text, n: nat, x: Text | h < x :: !src.fails(h, n, x)
    ensures FailuresBlind(src, c)
  {
    forall h: Text, n: nat | 1 <= n <= c.maxDraft && src.more(h, n, h)
      ensures RoundAbortChance(src, h, n) == 0.0 || RoundAbortChance(src, h, n) == 1.0
    {
      assert h + [] == h;
      if !src.fails(h, n, h) { NeverAborts(src, h, n, [], n); }
    }
  }

  lemma {:induction false} NeverAborts(src: Source, h: Text, n: nat, d: seq<nat>, m: nat)
    requires ValidSource(src) && !src.fails(h, n, h) && forall x: Text | h < x :: !src.fails(h, n, x)
    ensures AbortChance(Within(src.q, h, n), Within(src.more, h, n), Within(src.fails, h, n), h, d, m) == 0.0
    decreases m
  {
    var q, more, fails := Within(src.q, h, n), Within(src.more, h, n), Within(src.fails, h, n);
    assert h + d == h || h < h + d;
    if !(m == 0 || (d != [] && !more(h + d))) {
      forall t: nat { NeverAborts(src, h, n, d + [t], m - 1); }
      assert IsDist(src.q(h, n, h + d));
      ExpectConst(q(h + d), (t: nat) => AbortChance(q, more, fails, h, d + [t], m - 1), 0.0);
    }
  }

  /** Greedy drafting has only one draft, so its failures are harmless wherever they strike. */
  lemma GreedyFailuresAreBlind(src: Source, c: Config)
    requires ValidSource(src) && forall h: Text, n: nat, x: Text :: OnlyOne(src.q(h, n, x))
    ensures FailuresBlind(src, c)
  {
    forall h: Text, n: nat | 1 <= n <= c.maxDraft && src.more(h, n, h)
      ensures RoundAbortChance(src, h, n) == 0.0 || RoundAbortChance(src, h, n) == 1.0
    {
      OneDraft(src, h, n, [], n);
    }
  }

  /** All the mass is on one token. */
  ghost predicate OnlyOne(p: seq<real>) {
    exists a: nat :: AllOn(p, a)
  }

  ghost predicate AllOn(p: seq<real>, a: nat) {
    a < |p| && forall i: nat | i < |p| && i != a :: p[i] == 0.0
  }

  lemma {:induction false} OneDraft(src: Source, h: Text, n: nat, d: seq<nat>, m: nat)
    requires ValidSource(src) && forall x: Text :: OnlyOne(src.q(h, n, x))
    ensures var chance := AbortChance(Within(src.q, h, n), Within(src.more, h, n), Within(src.fails, h, n), h, d, m);
            chance == 0.0 || chance == 1.0
    decreases m
  {
    var q, more, fails := Within(src.q, h, n), Within(src.more, h, n), Within(src.fails, h, n);
    if !(m == 0 || (d != [] && !more(h + d))) && !fails(h + d) {
      var p := src.q(h, n, h + d);
      assert OnlyOne(p) && IsDist(p);
      var a: nat :| AllOn(p, a);
      OneDraft(src, h, n, d + [a], m - 1);
      var v := (t: nat) => AbortChance(q, more, fails, h, d + [t], m - 1);
      ExpectSupport(p, v, (t: nat) => v(a));
      ExpectConst(p, (t: nat) => v(a), v(a));
    }
  }

  // ---- A failing input ----

  /** A fair coin drafted against a fair coin. Token 0 ends a draft; a draft that goes on fails at its second token. */
  function CoinSource(): Source {
    Source(2, (h: Text, n: nat, x: Text) => [0.5, 0.5], (h: Text, n: nat, x: Text) => |x| <= |h| || x[|x| - 1] != 0,
           (h: Text, n: nat, x: Text) => |x| == |h| + 1, (h: Text) => true)
  }

  /** A prompt of one token, [1], and one token of budget, paid if it is token 0. */
  function CoinRun(): Run {
    Run((x: Text) => [0.5, 0.5], (x: Text) => false, 1, 1, 3, (x: Text) => if x == [1, 0] then 1.0 else 0.0)
  }

  lemma CoinMean(v: nat -> real)
    ensures Expect([0.5, 0.5], v) == (v(0) + v(1)) / 2.0
  {
    var f := (i: nat) => Mul(At([0.5, 0.5], i), v(i));
    assert SumTo(f, 0) == 0.0 && SumTo(f, 1) == f(0) && SumTo(f, 2) == f(0) + f(1);
    assert f(0) == Mul(0.5, v(0)) && f(1) == Mul(0.5, v(1));
  }

  lemma CoinPlain()
    ensures PlainValue(CoinRun(), [1]) == 0.5
  {
    hide Expect;
    var r, h: Text := CoinRun(), [1];
    forall t: nat ensures PlainValue(r, h + [t]) == if t == 0 then 1.0 else 0.0 {
      assert h + [t] == [1, t];
    }
    CoinMean((t: nat) => PlainValue(r, h + [t]));
  }

  /** A token both distributions agree on is accepted. */
  lemma AcceptedOne(p: Text -> seq<real>, q: Text -> seq<real>, h: Text, t: nat, f: (nat, Text) -> real)
    requires At(p(h), t) == At(q(h), t) > 0.0
    ensures VerifyMean(p, q, h, [t], 0, f) == f(1, h + [t])
  {
    hide Residual, Expect, Mul;
    var rest := Expect(Residual(p(h), q(h)), (t: nat) => f(0, h + [t]));
    assert [t][1..] == [] && VerifyMean(p, q, h + [t], [], 1, f) == f(1, h + [t]);
    MulLaws(f(1, h + [t]), 0.0, 0.0);
    MulLaws(rest, 0.0, 0.0);
  }

  /** Half of the rounds draft token 0 and keep it; the other half are aborted. */
  lemma CoinRound(f: (nat, nat, Text) -> real, aborted: real)
    ensures var src, h: Text := CoinSource(), [1];
            var q, more, fails := Within(src.q, h, 2), Within(src.more, h, 2), Within(src.fails, h, 2);
            RolloutMean(CoinRun().p, q, more, fails, h, [], 2, f, aborted) == (f(1, 1, [1, 0]) + aborted) / 2.0
  {
    hide Expect, VerifyMean;
    var src, h: Text := CoinSource(), [1];
    var p, q, more, fails := CoinRun().p, Within(src.q, h, 2), Within(src.more, h, 2), Within(src.fails, h, 2);
    var next := (t: nat) => RolloutMean(p, q, more, fails, h, [] + [t], 1, f, aborted);
    assert next(1) == aborted by { assert h + ([] + [1]) == [1, 1]; }
    assert next(0) == f(1, 1, [1, 0]) by {
      assert [] + [0] == [0] && h + [0] == [1, 0];
      AcceptedOne(p, q, h, 0, (acc: nat, x: Text) => f(1, acc, x));
    }
    CoinMean(next);
  }

  /** A round begins: the loop is worth the mean over its outcomes. */
  lemma SpecDrafts(r: Run, src: Source, c: Config, h: Text, s: Policy)
    requires !Done(r, h) && s.active && src.more(h, DraftCount(r, s, h), h)
    ensures var n := DraftCount(r, s, h);
            SpecValue(r, src, c, h, s)
              == RolloutMean(r.p, Within(src.q, h, n), Within(src.more, h, n), Within(src.fails, h, n), h, [], n,
                             (m: nat, acc: nat, x: Text) =>
                               if |x| > |h| then SpecValue(r, src, c, Cut(r, x, |h| + 1), AfterRound(c, s, m, acc))
                                   else 0.0,
                             Expect(r.p(h), (t: nat) => SpecValue(r, src, c, h + [t], s.(active := false))))
  {
    hide RolloutMean, Expect, AfterRound;
  }

  lemma CoinSetting(s: Policy)
    requires s.active && s.length >= 2
    ensures var r, src, h: Text := CoinRun(), CoinSource(), [1];
            && !Done(r, h) && DraftCount(r, s, h) == 2 && src.more(h, 2, h)
            && Cut(r, [1, 0], 2) == [1, 0] && Done(r, [1, 0]) && r.payoff([1, 0]) == 1.0
  {
  }

  /** Drafts that end early survive and the others are thrown away, so token 0 comes out three times in four. */
  lemma EosBias(s: Policy)
    requires s.active && s.length >= 2
    ensures PlainValue(CoinRun(), [1]) == 0.5
              && SpecValue(CoinRun(), CoinSource(), Config(1, 2, 0, 0.0), [1], s) == 0.75
  {
    hide Expect, RolloutMean, AfterRound, PlainValue, SpecValue, Done, Cut, DraftCount, CoinRun, CoinSource;
    var r, src, c, h: Text := CoinRun(), CoinSource(), Config(1, 2, 0, 0.0), [1];
    var aborted := Expect(r.p(h), (t: nat) => SpecValue(r, src, c, h + [t], s.(active := false)));
    var f := (m: nat, acc: nat, x: Text) =>
        if |x| > |h| then SpecValue(r, src, c, Cut(r, x, |h| + 1), AfterRound(c, s, m, acc)) else 0.0;
    CoinSetting(s);
    CoinPlain();
    AbortIsPlain(r, src, c, h, s);
    SpecDrafts(r, src, c, h, s);
    SpecAtEnd(r, src, c, [1, 0], AfterRound(c, s, 1, 1));
    assert f(1, 1, [1, 0]) == 1.0;
    CoinRound(f, aborted);
  }
}
