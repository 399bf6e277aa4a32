/**
 Speculative sampling over whole generations. A text is everything in the context so far; the
 target gives every text a next-token distribution, and a round drafts tokens from some other
 distributions, then accepts a prefix of them and corrects the first rejection. Means are exact.

 The main theorem, `SpeculationIsLossless`: whatever the adaptive lengths and the auto-disable history, and
 whatever the draft source, as long as its failures do not depend on what it drafted, every quantity computed
 from the finished generation has the same mean as under plain sampling. Taking the quantity to be the indicator
 of one output, the two generators produce every output with the same probability. `DraftFailures` shows that
 the condition is exact.
 */
module LosslessRun {
  import opened Sums
  import opened Acceptance
  import opened DraftPolicy

  type Text = seq<nat>

  // ---- One round ----

  /** Mean of `f(accepted, text)` over the outcomes of verifying the draft `d` from text `h`. */
  function VerifyMean(p: Text -> seq<real>, q: Text -> seq<real>, h: Text, d: seq<nat>, acc: nat,
                      f: (nat, Text) -> real): real
    decreases |d|
  {
    if d == [] then f(acc, h)
    else
      Mix(AcceptProb(At(p(h), d[0]), At(q(h), d[0])),
          VerifyMean(p, q, h + [d[0]], d[1..], acc + 1, f),
          Expect(Residual(p(h), q(h)), (t: nat) => f(acc, h + [t])))
  }

  /** Mean of `f(drafted, accepted, text)` over a whole round: the draft is rolled out first, token by
      token, for up to `n` tokens or until the source has no more, and is then verified. A draft model that fails on the
      way throws the draft away; the round is then worth `aborted`. */
  function RolloutMean(p: Text -> seq<real>, q: Text -> seq<real>, more: Text -> bool, fails: Text -> bool, h: Text,
                       d: seq<nat>, n: nat, f: (nat, nat, Text) -> real, aborted: real): real
    decreases n
  {
    if n == 0 || (d != [] && !more(h + d)) then
      VerifyMean(p, q, h, d, 0, (acc: nat, x: Text) => f(|d|, acc, x))
    else if fails(h + d) then aborted
    else
      Expect(q(h + d), (t: nat) => RolloutMean(p, q, more, fails, h, d + [t], n - 1, f, aborted))
  }

  /** The probability that a rollout that has drafted `d` is thrown away. */
  function AbortChance(q: Text -> seq<real>, more: Text -> bool, fails: Text -> bool, h: Text, d: seq<nat>,
                       n: nat): real
    decreases n
  {
    if n == 0 || (d != [] && !more(h + d)) then 0.0
    else if fails(h + d) then 1.0
    else Expect(q(h + d), (t: nat) => AbortChance(q, more, fails, h, d + [t], n - 1))
  }

  lemma {:induction false} AbortChanceBounds(q: Text -> seq<real>, more: Text -> bool, fails: Text -> bool, h: Text,
                                             d: seq<nat>, n: nat)
    requires forall x: Text :: IsDist(q(x))
    ensures 0.0 <= AbortChance(q, more, fails, h, d, n) <= 1.0
    decreases n
  {
    if !(n == 0 || (d != [] && !more(h + d))) && !fails(h + d) {
      forall t: nat { AbortChanceBounds(q, more, fails, h, d + [t], n - 1); }
      ExpectChance(q(h + d), (t: nat) => AbortChance(q, more, fails, h, d + [t], n - 1));
    }
  }

  /** What a certain or an impossible abort says about every token that may be drafted next. */
  lemma AbortChanceNext(q: Text -> seq<real>, more: Text -> bool, fails: Text -> bool, h: Text, d: seq<nat>, n: nat,
                        c: real)
    requires forall x: Text :: IsDist(q(x))
    requires !(n == 0 || (d != [] && !more(h + d))) && !fails(h + d)
    requires AbortChance(q, more, fails, h, d, n) == c && (c == 0.0 || c == 1.0)
    ensures forall t: nat | t < |q(h + d)| && q(h + d)[t] != 0.0 :: AbortChance(q, more, fails, h, d + [t], n - 1) == c
  {
    forall t: nat { AbortChanceBounds(q, more, fails, h, d + [t], n - 1); }
    ExpectChance(q(h + d), (t: nat) => AbortChance(q, more, fails, h, d + [t], n - 1));
  }

  ghost predicate Dists(p: Text -> seq<real>, q: Text -> seq<real>) {
    forall h: Text :: IsDist(p(h)) && IsDist(q(h)) && |q(h)| <= |p(h)|
  }

  /** From `h` on, the value of a text is the mean value of its one-token continuations under the target. */
  ghost predicate Martingale(p: Text -> seq<real>, v: Text -> real, h: Text) {
    forall x: Text | h <= x :: v(x) == Expect(p(x), (t: nat) => v(x + [t]))
  }

  function Ignoring(v: Text -> real): (nat, Text) -> real {
    (acc: nat, x: Text) => v(x)
  }

  /** A mean over outcomes depends only on the texts that strictly extend the start. */
  lemma {:induction false} VerifyCongruence(p: Text -> seq<real>, q: Text -> seq<real>, h0: Text, h: Text,
                                            d: seq<nat>, acc: nat, f: (nat, Text) -> real, g: (nat, Text) -> real)
    requires h0 <= h && (d == [] ==> h0 < h)
    requires forall k: nat, x: Text | h0 < x :: f(k, x) == g(k, x)
    ensures VerifyMean(p, q, h, d, acc, f) == VerifyMean(p, q, h, d, acc, g)
    decreases |d|
  {
    if d != [] {
      VerifyCongruence(p, q, h0, h + [d[0]], d[1..], acc + 1, f, g);
      ExpectExt(Residual(p(h), q(h)), (t: nat) => f(acc, h + [t]), (t: nat) => g(acc, h + [t]));
    }
  }

  /** Drafting one token more does not change the mean of a martingale after verification. */
  lemma {:induction false} ExtendDraft(p: Text -> seq<real>, q: Text -> seq<real>, v: Text -> real, h0: Text, h: Text,
                                       d: seq<nat>, acc: nat)
    requires Dists(p, q) && Martingale(p, v, h0) && h0 <= h
    ensures Expect(q(h + d), (t: nat) => VerifyMean(p, q, h, d + [t], acc, Ignoring(v)))
         == VerifyMean(p, q, h, d, acc, Ignoring(v))
    decreases |d|
  {
    if d == [] {
      assert h + d == h;
      ExtendEmpty(p, q, v, h, acc);
      forall t: nat ensures d + [t] == [t] {
      }
      ExpectExt(q(h), (t: nat) => VerifyMean(p, q, h, d + [t], acc, Ignoring(v)),
                (t: nat) => VerifyMean(p, q, h, [t], acc, Ignoring(v)));
    } else {
      var h1 := h + [d[0]];
      assert h1 + d[1..] == h + d;
      ExtendDraft(p, q, v, h0, h1, d[1..], acc + 1);
      ExtendTail(p, q, v, h, d, acc);
    }
  }

  /** Past the first drafted token, the mean of the longer draft is the same mixture as that of the shorter one. */
  lemma ExtendTail(p: Text -> seq<real>, q: Text -> seq<real>, v: Text -> real, h: Text, d: seq<nat>, acc: nat)
    requires Dists(p, q) && d != []
    ensures Expect(q(h + d), (t: nat) => VerifyMean(p, q, h, d + [t], acc, Ignoring(v)))
         == Mix(AcceptProb(At(p(h), d[0]), At(q(h), d[0])),
                Expect(q(h + d), (t: nat) => VerifyMean(p, q, h + [d[0]], d[1..] + [t], acc + 1, Ignoring(v))),
                Expect(Residual(p(h), q(h)), (t: nat) => Ignoring(v)(acc, h + [t])))
  {
    hide Residual, Expect, AcceptProb, Mul, IsDist;
    var a := AcceptProb(At(p(h), d[0]), At(q(h), d[0]));
    var b := Mul(1.0 - a, Expect(Residual(p(h), q(h)), (t: nat) => Ignoring(v)(acc, h + [t])));
    var w := (t: nat) => VerifyMean(p, q, h, d + [t], acc, Ignoring(v));
    var u := (t: nat) => VerifyMean(p, q, h + [d[0]], d[1..] + [t], acc + 1, Ignoring(v));
    forall t: nat ensures w(t) == Mul(a, u(t)) + b {
      assert (d + [t])[1..] == d[1..] + [t];
    }
    ExpectAffine(q(h + d), u, w, a, b);
  }

  /** The first drafted token, by the one-step law. */
  lemma ExtendEmpty(p: Text -> seq<real>, q: Text -> seq<real>, v: Text -> real, h: Text, acc: nat)
    requires Dists(p, q) && Martingale(p, v, h)
    ensures Expect(q(h), (t: nat) => VerifyMean(p, q, h, [t], acc, Ignoring(v))) == v(h)
  {
    var next := (t: nat) => v(h + [t]);
    var r := Expect(Residual(p(h), q(h)), next);
    var one := (t: nat) => VerifyMean(p, q, h, [t], acc, Ignoring(v));
    var mix := (d: nat) => Mix(AcceptProb(At(p(h), d), At(q(h), d)), next(d), r);
    forall t: nat ensures one(t) == mix(t) {
      assert [t][1..] == [];
      assert VerifyMean(p, q, h + [t], [], acc + 1, Ignoring(v)) == next(t);
      ExpectExt(Residual(p(h), q(h)), (s: nat) => Ignoring(v)(acc, h + [s]), next);
    }
    ExpectExt(q(h), one, mix);
    ExpectExt(q(h), mix, (d: nat) => Mix(AcceptProb(At(p(h), d), At(q(h), d)), next(d),
                                         Expect(Residual(p(h), q(h)), next)));
    StepIsLossless(p(h), q(h), next);
    ExpectExt(p(h), next, (t: nat) => v(h + [t]));
  }

  /** A whole round that is not aborted, of any length, from any source, has the mean of a single target step: a
      martingale is unchanged. */
  lemma {:induction false} RoundIsLossless(p: Text -> seq<real>, q: Text -> seq<real>, more: Text -> bool,
                                           fails: Text -> bool, v: Text -> real, h: Text, d: seq<nat>, n: nat,
                                           f: (nat, nat, Text) -> real, aborted: real)
    requires Dists(p, q) && Martingale(p, v, h) && AbortChance(q, more, fails, h, d, n) == 0.0
    requires n > 0 || d != []
    requires forall m: nat, k: nat, x: Text | h < x :: f(m, k, x) == v(x)
    ensures RolloutMean(p, q, more, fails, h, d, n, f, aborted) == VerifyMean(p, q, h, d, 0, Ignoring(v))
    ensures d == [] ==> RolloutMean(p, q, more, fails, h, d, n, f, aborted) == v(h)
    decreases n
  {
    if n == 0 || (d != [] && !more(h + d)) {
      VerifyCongruence(p, q, h, h, d, 0, (acc: nat, x: Text) => f(|d|, acc, x), Ignoring(v));
    } else {
      AbortChanceNext(q, more, fails, h, d, n, 0.0);
      forall t: nat | t < |q(h + d)| && q(h + d)[t] != 0.0
        ensures RolloutMean(p, q, more, fails, h, d + [t], n - 1, f, aborted)
                  == VerifyMean(p, q, h, d + [t], 0, Ignoring(v))
      {
        RoundIsLossless(p, q, more, fails, v, h, d + [t], n - 1, f, aborted);
      }
      ExpectSupport(q(h + d), (t: nat) => RolloutMean(p, q, more, fails, h, d + [t], n - 1, f, aborted),
                    (t: nat) => VerifyMean(p, q, h, d + [t], 0, Ignoring(v)));
      ExtendDraft(p, q, v, h, h, d, 0);
    }
  }

  /** A round that is sure to be aborted is worth what the abort is. */
  lemma {:induction false} AbortedRound(p: Text -> seq<real>, q: Text -> seq<real>, more: Text -> bool,
                                        fails: Text -> bool, h: Text, d: seq<nat>, n: nat,
                                        f: (nat, nat, Text) -> real, aborted: real)
    requires Dists(p, q) && AbortChance(q, more, fails, h, d, n) == 1.0
    ensures RolloutMean(p, q, more, fails, h, d, n, f, aborted) == aborted
    decreases n
  {
    if !fails(h + d) {
      AbortChanceNext(q, more, fails, h, d, n, 1.0);
      forall t: nat | t < |q(h + d)| && q(h + d)[t] != 0.0
        ensures RolloutMean(p, q, more, fails, h, d + [t], n - 1, f, aborted) == aborted
      {
        AbortedRound(p, q, more, fails, h, d + [t], n - 1, f, aborted);
      }
      ExpectSupport(q(h + d), (t: nat) => RolloutMean(p, q, more, fails, h, d + [t], n - 1, f, aborted),
                    (t: nat) => aborted);
      ExpectConst(q(h + d), (t: nat) => aborted, aborted);
    }
  }

  // ---- Whole generations ----

  /** One generation: the target's next-token distributions, the texts after which emission stops (an end-of-generation
      token, or a callback that returned false), the token and context budgets, and what is measured at the end. */
  datatype Run = Run(p: Text -> seq<real>, stops: Text -> bool, promptLen: nat, maxTokens: nat, nCtx: nat,
                     payoff: Text -> real)

  /** A draft source: the distributions it draws from, how far it goes, and where its model fails, given the text a
      round began with, the most tokens it may draft, and the text drafted so far. `keepArmed` says whether a text
      with nothing to draft leaves speculation on. */
  datatype Source = Source(vocab: nat, q: (Text, nat, Text) -> seq<real>, more: (Text, nat, Text) -> bool,
                           fails: (Text, nat, Text) -> bool, keepArmed: Text -> bool)

  /** A source, as one round sees it. */
  function Within<T>(f: (Text, nat, Text) -> T, h: Text, n: nat): Text -> T {
    (x: Text) => f(h, n, x)
  }

  /** The probability that a round from `h` of up to `n` tokens is aborted. */
  function RoundAbortChance(src: Source, h: Text, n: nat): real {
    AbortChance(Within(src.q, h, n), Within(src.more, h, n), Within(src.fails, h, n), h, [], n)
  }

  function Limit(r: Run): nat {
    if r.promptLen + r.maxTokens < r.nCtx then r.promptLen + r.maxTokens else r.nCtx
  }

  predicate Done(r: Run, h: Text) {
    |h| >= Limit(r) || (|h| > r.promptLen && r.stops(h))
  }

  function Left(r: Run, h: Text): nat {
    if |h| < Limit(r) then Limit(r) - |h| else 0
  }

  /** Mean payoff of plain sampling from text `h`. */
  function PlainValue(r: Run, h: Text): real
    decreases Left(r, h)
  {
    if Done(r, h) then r.payoff(h)
    else Expect(r.p(h), (t: nat) => PlainValue(r, h + [t]))
  }

  /** The tokens of a round are emitted one at a time: nothing after the first stop is. */
  function Cut(r: Run, x: Text, k: nat): (c: Text)
    ensures c <= x && (k <= |x| ==> |c| >= k) && (k > |x| ==> c == x)
    decreases |x| - k
  {
    if k >= |x| then x
    else if Done(r, x[..k]) then x[..k]
    else Cut(r, x, k + 1)
  }

  function DraftCount(r: Run, s: Policy, h: Text): nat {
    var room := r.nCtx - |h|;
    var n := if s.length < room then s.length else room;
    if n > 1 then n else 1
  }

  /** Mean payoff of the speculative loop from text `h` in adaptive state `s`. A draft model that fails is not used
      again, and its text is continued by a plain step. */
  function SpecValue(r: Run, src: Source, c: Config, h: Text, s: Policy): real
    decreases Left(r, h)
  {
    var n := DraftCount(r, s, h);
    if Done(r, h) then r.payoff(h)
    else if !s.active || !src.more(h, n, h) then
      Expect(r.p(h), (t: nat) => SpecValue(r, src, c, h + [t], s.(active := s.active && src.keepArmed(h))))
    else
      RolloutMean(r.p, Within(src.q, h, n), Within(src.more, h, n), Within(src.fails, h, n), h, [], n,
                  (m: nat, acc: nat, x: Text) =>
                    if |x| > |h| then SpecValue(r, src, c, Cut(r, x, |h| + 1), AfterRound(c, s, m, acc)) else 0.0,
                  Expect(r.p(h), (t: nat) => SpecValue(r, src, c, h + [t], s.(active := false))))
  }

  ghost predicate ValidSource(src: Source) {
    forall h: Text, n: nat, x: Text :: IsDist(src.q(h, n, x)) && |src.q(h, n, x)| == src.vocab
  }

  ghost predicate ValidRun(r: Run, src: Source) {
    ValidSource(src) && forall x: Text :: IsDist(r.p(x)) && src.vocab <= |r.p(x)|
  }

  /** Wherever a round may begin, its abort is certain or impossible: what was drafted has no say in it. */
  ghost predicate FailuresBlind(src: Source, c: Config) {
    forall h: Text, n: nat | 1 <= n <= c.maxDraft && src.more(h, n, h) ::
      RoundAbortChance(src, h, n) == 0.0 || RoundAbortChance(src, h, n) == 1.0
  }

  /** One token more either lies beyond an emitted stop, or is itself the newest emitted token. */
  lemma {:induction false} CutExtend(r: Run, x: Text, t: nat, k: nat)
    ensures Cut(r, x + [t], k) == if k <= |x| && Done(r, Cut(r, x, k)) then Cut(r, x, k) else x + [t]
    ensures !(k <= |x| && Done(r, Cut(r, x, k))) ==> Cut(r, x, k) == x
    decreases |x| - k
  {
    if k < |x| {
      assert (x + [t])[..k] == x[..k];
      if !Done(r, x[..k]) { CutExtend(r, x, t, k + 1); }
    } else if k == |x| {
      assert (x + [t])[..k] == x;
      if !Done(r, x) { assert Cut(r, x + [t], k + 1) == x + [t]; }
    }
  }

  function CutValue(r: Run, k: nat): Text -> real {
    (x: Text) => PlainValue(r, Cut(r, x, k))
  }

  /** The plain mean, read at the emitted part of a text, is a martingale of the target. */
  lemma CutValueIsMartingale(r: Run, src: Source, h: Text)
    requires ValidRun(r, src) && !Done(r, h)
    ensures Martingale(r.p, CutValue(r, |h| + 1), h)
  {
    var k := |h| + 1;
    var v := CutValue(r, k);
    forall x: Text | h <= x ensures v(x) == Expect(r.p(x), (t: nat) => v(x + [t])) {
      assert IsDist(r.p(x));
      var next := (t: nat) => v(x + [t]);
      forall t: nat { CutExtend(r, x, t, k); }
      if k <= |x| && Done(r, Cut(r, x, k)) {
        ExpectConst(r.p(x), next, v(x));
      } else {
        assert x == h || k <= |x|;
        CutExtend(r, x, 0, k);
        assert Cut(r, x, k) == x && !Done(r, x);
        ExpectExt(r.p(x), next, (t: nat) => PlainValue(r, x + [t]));
      }
    }
  }

  /** Speculation changes nothing but speed, unless draft failures depend on what was drafted. */
  lemma {:induction false} SpeculationIsLossless(r: Run, src: Source, c: Config, h: Text, s: Policy)
    requires ValidRun(r, src) && ValidConfig(c) && ValidPolicy(c, s) && FailuresBlind(src, c)
    ensures SpecValue(r, src, c, h, s) == PlainValue(r, h)
    decreases Left(r, h)
  {
    if !Done(r, h) {
      if !s.active || !src.more(h, DraftCount(r, s, h), h) {
        var s' := s.(active := s.active && src.keepArmed(h));
        forall t: nat { SpeculationIsLossless(r, src, c, h + [t], s'); }
        ExpectExt(r.p(h), (t: nat) => SpecValue(r, src, c, h + [t], s.(active := s.active && src.keepArmed(h))),
                  (t: nat) => PlainValue(r, h + [t]));
      } else {
        SpeculativeRound(r, src, c, h, s);
      }
    }
  }

  /** With speculation off, the loop is plain sampling. */
  lemma {:induction false} InactiveIsPlain(r: Run, src: Source, c: Config, h: Text, s: Policy)
    requires !s.active
    ensures SpecValue(r, src, c, h, s) == PlainValue(r, h)
    decreases Left(r, h)
  {
    if !Done(r, h) {
      var s' := s.(active := s.active && src.keepArmed(h));
      forall t: nat { InactiveIsPlain(r, src, c, h + [t], s'); }
      ExpectExt(r.p(h), (t: nat) => SpecValue(r, src, c, h + [t], s.(active := s.active && src.keepArmed(h))),
                (t: nat) => PlainValue(r, h + [t]));
    }
  }

  /** An aborted round is worth a plain step. */
  lemma AbortIsPlain(r: Run, src: Source, c: Config, h: Text, s: Policy)
    requires !Done(r, h)
    ensures Expect(r.p(h), (t: nat) => SpecValue(r, src, c, h + [t], s.(active := false))) == PlainValue(r, h)
  {
    forall t: nat { InactiveIsPlain(r, src, c, h + [t], s.(active := false)); }
    ExpectExt(r.p(h), (t: nat) => SpecValue(r, src, c, h + [t], s.(active := false)),
              (t: nat) => PlainValue(r, h + [t]));
  }

  lemma RoundDists(r: Run, src: Source, h: Text, n: nat)
    requires ValidRun(r, src)
    ensures Dists(r.p, Within(src.q, h, n))
  {
    forall x: Text ensures IsDist(r.p(x)) && IsDist(Within(src.q, h, n)(x)) && |Within(src.q, h, n)(x)| <= |r.p(x)| {
      assert IsDist(src.q(h, n, x));
    }
  }

  lemma {:induction false} SpeculativeRound(r: Run, src: Source, c: Config, h: Text, s: Policy)
    requires ValidRun(r, src) && ValidConfig(c) && ValidPolicy(c, s) && FailuresBlind(src, c)
    requires !Done(r, h) && s.active && src.more(h, DraftCount(r, s, h), h)
    ensures SpecValue(r, src, c, h, s) == PlainValue(r, h)
    decreases Left(r, h), 0
  {
    var n := DraftCount(r, s, h);
    var q, more, fails := Within(src.q, h, n), Within(src.more, h, n), Within(src.fails, h, n);
    var v := CutValue(r, |h| + 1);
    var aborted := Expect(r.p(h), (t: nat) => SpecValue(r, src, c, h + [t], s.(active := false)));
    var f := (m: nat, acc: nat, x: Text) =>
        if |x| > |h| then SpecValue(r, src, c, Cut(r, x, |h| + 1), AfterRound(c, s, m, acc)) else 0.0;
    RoundDists(r, src, h, n);
    AbortIsPlain(r, src, c, h, s);
    assert RoundAbortChance(src, h, n) == 0.0 || RoundAbortChance(src, h, n) == 1.0;
    if RoundAbortChance(src, h, n) == 1.0 {
      AbortedRound(r.p, q, more, fails, h, [], n, f, aborted);
    } else {
      forall m: nat, acc: nat, x: Text | h < x ensures f(m, acc, x) == v(x) {
        AfterRoundValid(c, s, m, acc);
        SpeculationIsLossless(r, src, c, Cut(r, x, |h| + 1), AfterRound(c, s, m, acc));
      }
      CutValueIsMartingale(r, src, h);
      RoundIsLossless(r.p, q, more, fails, v, h, [], n, f, aborted);
      assert v(h) == PlainValue(r, h);
    }
  }
}
