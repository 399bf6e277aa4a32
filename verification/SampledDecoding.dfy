/**
 The decoder's turns, read as turns of the sampling programs. Together with `SampledRun.SameDistribution` this gives the
 distribution of what the decoder delivers: it evaluates a program whose mean, for every quantity computed from
 the delivered tokens, is that of plain sampling.
 */
module SampledDecoding {
  import opened Sums
  import opened Acceptance
  import opened Backends
  import opened Generation
  import opened DraftPolicy
  import opened LosslessRun
  import opened DraftFailures
  import opened Draws
  import opened SampledRun
  import opened DraftVerification

  // ---- A request as a run ----

  /** The newest token ends the generation: it is an end-of-generation token, or the callback refused more. */
  predicate Stops(g: Request, prompt: seq<Token>, x: Text) {
    |prompt| < |x| && (g.net.eog(x[|x| - 1]) || !g.keepGoing(x[|prompt|..]))
  }

  /** What the callback was handed of a text: all that was generated but a final end-of-generation token. */
  function HandedOver(g: Request, prompt: seq<Token>, x: Text): seq<Token> {
    if |x| <= |prompt| then []
    else if g.net.eog(x[|x| - 1]) then x[|prompt|..|x| - 1]
    else x[|prompt|..]
  }

  /** The target's next-token distributions, as sampling sees them. */
  function Target(g: Request): Text -> seq<real> {
    (x: Text) => g.sampler.dist(g.net.logits(x), x)
  }

  /** A request, and something to measure of what it delivers. */
  function RunOf(g: Request, prompt: seq<Token>, f: seq<Token> -> real): Run {
    Run(Target(g), (x: Text) => Stops(g, prompt, x), |prompt|, if g.maxTokens > 0 then g.maxTokens else 0, g.net.nCtx,
        (x: Text) => f(HandedOver(g, prompt, x)))
  }

  lemma TargetDist(g: Request, x: Text)
    requires ValidRequest(g)
    ensures |Target(g)(x)| == g.net.vocab && IsDist(Target(g)(x))
  {
    assert |g.net.logits(x)| == g.net.vocab;
  }

  lemma ModelSourceFits(g: Request, net: Network, fails: seq<Token> -> bool, prompt: seq<Token>,
                        f: seq<Token> -> real, c: Config)
    requires ValidRequest(g) && ValidNetwork(net) && net.vocab <= g.net.vocab
    ensures var src := ModelSource(g.sampler, net, fails);
            && ValidRun(RunOf(g, prompt, f), src) && ProposesAll(src, true)
            && ((forall x: seq<Token> :: !fails(x)) ==> FailuresBlind(src, c))
  {
    var src := ModelSource(g.sampler, net, fails);
    forall h: Text, n: nat, x: Text ensures IsDist(src.q(h, n, x)) && |src.q(h, n, x)| == src.vocab {
      assert |net.logits(x)| == net.vocab;
    }
    forall x: Text { TargetDist(g, x); }
    if forall x: seq<Token> :: !fails(x) { EarlyFailuresAreBlind(src, c); }
  }

  lemma LookupSourceFits(g: Request, lookup: Lookup, prompt: seq<Token>, f: seq<Token> -> real, c: Config)
    requires ValidRequest(g) && ValidLookup(lookup, g.net.vocab)
    ensures var src := LookupSource(g.net.vocab, lookup);
            ValidRun(RunOf(g, prompt, f), src) && ProposesAll(src, false) && FailuresBlind(src, c)
  {
    var src := LookupSource(g.net.vocab, lookup);
    forall h: Text, n: nat, x: Text
      ensures IsDist(src.q(h, n, x)) && |src.q(h, n, x)| == src.vocab > 0
      ensures src.q(h, n, x) == OneHot(|src.q(h, n, x)|, Argmax(src.q(h, n, x)))
    {
      var t := Proposed(lookup, h, n, |x| - |h|);
      assert t < g.net.vocab;
      OneHotIsDist(g.net.vocab, t);
      ArgmaxOneHot(g.net.vocab, t);
    }
    forall x: Text { TargetDist(g, x); }
    EarlyFailuresAreBlind(src, c);
  }

  // ---- Verification ----

  /** Verification goes the way of its tree. */
  lemma {:induction false} EvalVerify(g: Request, q: Text -> seq<real>, h: Text, d: seq<nat>, qs: seq<seq<real>>,
                                      acc: nat, go: (nat, Text) -> Tree, z: Streams, k: nat, j: nat)
    requires ValidRequest(g) && Dists(Target(g), q) && Fair(z)
    requires |qs| == |d| && forall i | 0 <= i < |d| :: qs[i] == q(h + d[..i])
    ensures var v := Verify(g, h, d, qs, z.accept, k);
            Eval(VerifyTree(Target(g), q, h, d, acc, go), z, k, j)
              == Eval(go(acc + |v.accepted|, h + Emitted(v)), z, v.cursor, j)
    decreases |d|
  {
    hide Eval, DrawNode, TestNode, Residual, IsDist, Verify, ValidRequest;
    if d == [] {
      NothingVerified(g, h, qs, z.accept, k);
      assert h + [] == h;
    } else {
      var h1, d1, qs1 := h + [d[0]], d[1..], qs[1..];
      var p := Target(g)(h);
      WeighedTail(q, h, d, qs);
      EvalTest(p, q(h), d[0], VerifyTree(Target(g), q, h1, d1, acc + 1, go), (t: nat) => go(acc, h + [t]), z, k, j);
      VerifyNext(g, h, d, qs, z.accept, k);
      if AcceptToken(At(p, d[0]), At(q(h), d[0]), z.accept(k)) {
        EvalVerify(g, q, h1, d1, qs1, acc + 1, go, z, k + 1, j);
      }
    }
  }

  lemma WeighedTail(q: Text -> seq<real>, h: Text, d: seq<Token>, qs: seq<seq<real>>)
    requires |qs| == |d| > 0 && forall i | 0 <= i < |d| :: qs[i] == q(h + d[..i])
    ensures qs[0] == q(h) && forall i | 0 <= i < |d[1..]| :: qs[1..][i] == q(h + [d[0]] + d[1..][..i])
  {
    assert d[..0] == [] && h + d[..0] == h;
    forall i | 0 <= i < |d[1..]| ensures qs[1..][i] == q(h + [d[0]] + d[1..][..i]) {
      assert h + [d[0]] + d[1..][..i] == h + d[..i + 1];
    }
  }

  /** One step of verification, as a step of the text. */
  lemma VerifyNext(g: Request, h: seq<Token>, d: seq<Token>, qs: seq<seq<real>>, u: nat -> real, k: nat)
    requires |qs| == |d| > 0
    ensures var v := Verify(g, h, d, qs, u, k);
            var rest := Verify(g, h + [d[0]], d[1..], qs[1..], u, k + 1);
            if AcceptToken(At(Target(g)(h), d[0]), At(qs[0], d[0]), u(k)) then
              |v.accepted| == 1 + |rest.accepted| && h + Emitted(v) == h + [d[0]] + Emitted(rest)
                  && v.cursor == rest.cursor
            else
              v.accepted == [] && h + Emitted(v) == h + [Draw(Residual(Target(g)(h), qs[0]), u(k + 1))]
                  && v.cursor == k + 2
  {
    hide Residual, Draw, AcceptToken;
    VerifyHead(g, h, d, qs, u, k);
    var v, rest := Verify(g, h, d, qs, u, k), Verify(g, h + [d[0]], d[1..], qs[1..], u, k + 1);
    if AcceptToken(At(Target(g)(h), d[0]), At(qs[0], d[0]), u(k)) {
      EmittedPrepend(d[0], rest);
      assert h + ([d[0]] + Emitted(rest)) == h + [d[0]] + Emitted(rest);
    } else {
      assert Emitted(v) == [] + [Draw(Residual(Target(g)(h), qs[0]), u(k + 1))];
    }
  }

  /** One test of a drafted token, and the draw that replaces a rejected one. */
  lemma EvalTest(p: seq<real>, q: seq<real>, d: nat, yes: Tree, no: nat -> Tree, z: Streams, k: nat, j: nat)
    requires IsDist(p) && IsDist(q) && Fair(z)
    ensures Eval(TestNode(AcceptProb(At(p, d), At(q, d)), yes, DrawNode(true, Residual(p, q), no)), z, k, j)
         == if AcceptToken(At(p, d), At(q, d), z.accept(k)) then Eval(yes, z, k + 1, j)
            else Eval(no(Draw(Residual(p, q), z.accept(k + 1))), z, k + 2, j)
  {
    hide Eval, DrawNode, TestNode, Residual;
    assert 0.0 <= z.accept(k) < 1.0;
    AcceptMeasure(At(p, d), At(q, d), z.accept(k));
    ResidualIsDist(p, q);
    TestNodeEval(AcceptProb(At(p, d), At(q, d)), yes, DrawNode(true, Residual(p, q), no), z, k, j);
    DrawNodeEval(true, Residual(p, q), no, z, k + 1, j);
  }

  /** A round goes the way of its rollout, and then of its verification, or of its abort if the model failed. */
  lemma {:induction false} EvalRound(p: Text -> seq<real>, q: Text -> seq<real>, more: Text -> bool,
                                     fails: Text -> bool, drawn: bool, h: Text, d: seq<nat>, n: nat,
                                     go: (nat, nat, Text) -> Tree, aborted: Tree, z: Streams, k: nat, j: nat)
    requires Dists(p, q) && Fair(z)
    ensures var r := Rollout(q, more, fails, drawn, z.sample, h, d, n, j);
            Eval(RoundTree(p, q, more, fails, drawn, h, d, n, go, aborted), z, k, j)
              == if r.failed then Eval(aborted, z, k, r.cursor)
                 else Eval(VerifyTree(p, q, h, r.draft, 0, (acc: nat, x: Text) => go(|r.draft|, acc, x)), z, k,
                           r.cursor)
    decreases n
  {
    hide Eval, DrawNode, VerifyTree;
    if !(n == 0 || (d != [] && !more(h + d)) || fails(h + d)) {
      if drawn {
        DrawNodeEval(false, q(h + d), (t: nat) => RoundTree(p, q, more, fails, drawn, h, d + [t], n - 1, go, aborted),
                     z, k, j);
        EvalRound(p, q, more, fails, drawn, h, d + [Draw(q(h + d), z.sample(j))], n - 1, go, aborted, z, k, j + 1);
      } else {
        EvalRound(p, q, more, fails, drawn, h, d + [Argmax(q(h + d))], n - 1, go, aborted, z, k, j);
      }
    }
  }

  // ---- Emission ----

  /** One token handed over: where delivery stops, the text is done. */
  lemma DeliverOne(g: Request, prompt: seq<Token>, f: seq<Token> -> real, out: seq<Token>, t: Token)
    requires InBudget(g, prompt, out)
    ensures var r := RunOf(g, prompt, f);
            var next, h1 := out + [t], prompt + (out + [t]);
            && (Done(r, h1) <==> g.net.eog(t) || !g.keepGoing(next) || !InBudget(g, prompt, next))
            && r.payoff(h1) == f(if g.net.eog(t) then out else next)
  {
    var r, next, h1 := RunOf(g, prompt, f), out + [t], prompt + (out + [t]);
    assert h1[|prompt|..] == next && h1[|prompt|..|h1| - 1] == out && h1[|h1| - 1] == t;
    assert r.stops(h1) <==> g.net.eog(t) || !g.keepGoing(next);
    assert HandedOver(g, prompt, h1) == if g.net.eog(t) then out else next;
    assert |h1| >= Limit(r) <==> !InBudget(g, prompt, next);
  }

  /** A prompt is done exactly when it leaves no budget, and then nothing is delivered. */
  lemma DeliverNone(g: Request, prompt: seq<Token>, f: seq<Token> -> real)
    ensures var r := RunOf(g, prompt, f);
            (Done(r, prompt) <==> !InBudget(g, prompt, [])) && r.payoff(prompt) == f([]) && prompt + [] == prompt
  {
    assert HandedOver(g, prompt, prompt) == [] && prompt + [] == prompt;
  }

  /** Handing a batch over stops where the text it would make is cut. */
  lemma {:induction false} DeliverIsCut(g: Request, prompt: seq<Token>, f: seq<Token> -> real, out: seq<Token>,
                                        batch: seq<Token>)
    requires InBudget(g, prompt, out) && batch != []
    ensures var r := RunOf(g, prompt, f);
            var y := Cut(r, prompt + out + batch, |prompt + out| + 1);
            var (out', stopped) := Deliver(g, prompt, out, batch);
            && (Done(r, y) <==> stopped || !InBudget(g, prompt, out'))
            && (Done(r, y) ==> r.payoff(y) == f(out'))
            && (!Done(r, y) ==> y == prompt + out')
    decreases |batch|
  {
    hide Done, RunOf, InBudget;
    var r := RunOf(g, prompt, f);
    var x := prompt + out + batch;
    var next := out + [batch[0]];
    var h1 := prompt + next;
    assert x[..|prompt + out| + 1] == h1;
    DeliverOne(g, prompt, f, out, batch[0]);
    if |batch| == 1 {
      assert x == h1 == Cut(r, x, |prompt + out| + 1);
      assert Deliver(g, prompt, next, batch[1..]) == (next, false);
    } else if Done(r, h1) {
      assert |prompt + out| + 1 < |x|;
      assert Cut(r, x, |prompt + out| + 1) == h1;
    } else {
      DeliverIsCut(g, prompt, f, next, batch[1..]);
      assert prompt + next + batch[1..] == x;
    }
  }

  // ---- Turns of the loop ----

  /** A plain step. */
  lemma EvalPlain(g: Request, prompt: seq<Token>, f: seq<Token> -> real, src: Source, drawn: bool, c: Config, h: Text,
                  s: Policy, z: Streams, k: nat, j: nat)
    requires ValidRequest(g) && Fair(z) && !Done(RunOf(g, prompt, f), h)
    requires !s.active || !src.more(h, DraftCount(RunOf(g, prompt, f), s, h), h)
    ensures var r := RunOf(g, prompt, f);
            Eval(SpecTree(r, src, drawn, c, h, s), z, k, j)
              == Eval(SpecTree(r, src, drawn, c, h + [Draw(Target(g)(h), z.sample(j))],
                               s.(active := s.active && src.keepArmed(h))), z, k, j + 1)
  {
    hide Eval, DrawNode;
    var r := RunOf(g, prompt, f);
    TargetDist(g, h);
    DrawNodeEval(false, r.p(h), (t: nat) => SpecTree(r, src, drawn, c, h + [t],
                                                     s.(active := s.active && src.keepArmed(h))), z, k, j);
  }

  /** Giving speculation up at a text with nothing to draft is what the program does there anyway. */
  lemma EvalDisarm(g: Request, prompt: seq<Token>, f: seq<Token> -> real, src: Source, drawn: bool, c: Config,
                   h: Text, s: Policy, z: Streams, k: nat, j: nat)
    requires ValidRequest(g) && Fair(z)
    requires s.active && !src.more(h, DraftCount(RunOf(g, prompt, f), s, h), h) && !src.keepArmed(h)
    ensures Eval(SpecTree(RunOf(g, prompt, f), src, drawn, c, h, s), z, k, j)
              == Eval(SpecTree(RunOf(g, prompt, f), src, drawn, c, h, s.(active := false)), z, k, j)
  {
    hide Eval, DrawNode, RoundTree;
    if !Done(RunOf(g, prompt, f), h) {
      EvalPlain(g, prompt, f, src, drawn, c, h, s, z, k, j);
      EvalPlain(g, prompt, f, src, drawn, c, h, s.(active := false), z, k, j);
    }
  }

  /** Rolling a draft out and verifying it. */
  lemma EvalDraft(g: Request, src: Source, drawn: bool, h: Text, n: nat, d: seq<Token>, qs: seq<seq<real>>,
                  go: (nat, nat, Text) -> Tree, aborted: Tree, z: Streams, k: nat, j: nat, j': nat)
    requires ValidRequest(g) && Dists(Target(g), Within(src.q, h, n)) && Fair(z)
    requires SourceRollout(src, drawn, z.sample, h, n, j) == Rolled(d, j', false) && Weighed(src, h, n, d, qs)
    ensures var v := Verify(g, h, d, qs, z.accept, k);
            var q, more, fails := Within(src.q, h, n), Within(src.more, h, n), Within(src.fails, h, n);
            Eval(RoundTree(Target(g), q, more, fails, drawn, h, [], n, go, aborted), z, k, j)
              == Eval(go(|d|, |v.accepted|, h + Emitted(v)), z, v.cursor, j')
  {
    hide Eval, DrawNode, RoundTree, VerifyTree, Rollout, Verify, ValidRequest, IsDist;
    var q, more, fails := Within(src.q, h, n), Within(src.more, h, n), Within(src.fails, h, n);
    EvalRound(Target(g), q, more, fails, drawn, h, [], n, go, aborted, z, k, j);
    EvalVerify(g, q, h, d, qs, 0, (acc: nat, x: Text) => go(|d|, acc, x), z, k, j');
  }

  /** A model that fails on its draft: the program goes on as with speculation off. */
  lemma EvalAborted(g: Request, prompt: seq<Token>, f: seq<Token> -> real, src: Source, drawn: bool, c: Config,
                    h: Text, s: Policy, z: Streams, k: nat, j: nat)
    requires ValidRequest(g) && ValidRun(RunOf(g, prompt, f), src) && Fair(z)
    requires !Done(RunOf(g, prompt, f), h)
    requires var n := DraftCount(RunOf(g, prompt, f), s, h);
             s.active && src.more(h, n, h) && SourceRollout(src, drawn, z.sample, h, n, j).failed
    ensures var r := RunOf(g, prompt, f);
            var j' := SourceRollout(src, drawn, z.sample, h, DraftCount(r, s, h), j).cursor;
            Eval(SpecTree(r, src, drawn, c, h, s), z, k, j)
              == Eval(SpecTree(r, src, drawn, c, h, s.(active := false)), z, k, j')
  {
    hide Eval, DrawNode, RoundTree, Rollout, AfterRound, IsDist, Stops, HandedOver;
    var r := RunOf(g, prompt, f);
    var n := DraftCount(r, s, h);
    var q, more, fails := Within(src.q, h, n), Within(src.more, h, n), Within(src.fails, h, n);
    var go := (m: nat, acc: nat, x: Text) =>
        if |x| > |h| then SpecTree(r, src, drawn, c, Cut(r, x, |h| + 1), AfterRound(c, s, m, acc)) else Leaf(0.0);
    var aborted := DrawNode(false, r.p(h), (t: nat) => SpecTree(r, src, drawn, c, h + [t], s.(active := false)));
    RoundDists(r, src, h, n);
    EvalRound(r.p, q, more, fails, drawn, h, [], n, go, aborted, z, k, j);
    var off := s.(active := false);
    EvalPlain(g, prompt, f, src, drawn, c, h, off, z, k, SourceRollout(src, drawn, z.sample, h, n, j).cursor);
    TargetDist(g, h);
    DrawNodeEval(false, r.p(h), (t: nat) => SpecTree(r, src, drawn, c, h + [t], s.(active := false)), z, k,
                 SourceRollout(src, drawn, z.sample, h, n, j).cursor);
    assert off.(active := off.active && src.keepArmed(h)) == off;
  }

  /** A speculative round. */
  lemma EvalDrafted(g: Request, prompt: seq<Token>, f: seq<Token> -> real, src: Source, drawn: bool, c: Config,
                    h: Text, s: Policy, d: seq<Token>, qs: seq<seq<real>>, z: Streams, k: nat, j: nat, j': nat)
    requires ValidRequest(g) && ValidRun(RunOf(g, prompt, f), src) && Fair(z)
    requires !Done(RunOf(g, prompt, f), h)
    requires var n := DraftCount(RunOf(g, prompt, f), s, h);
             && s.active && src.more(h, n, h) && |qs| == |d| > 0
             && SourceRollout(src, drawn, z.sample, h, n, j) == Rolled(d, j', false) && Weighed(src, h, n, d, qs)
    ensures var r := RunOf(g, prompt, f);
            var v := Verify(g, h, d, qs, z.accept, k);
            Eval(SpecTree(r, src, drawn, c, h, s), z, k, j)
              == Eval(SpecTree(r, src, drawn, c, Cut(r, h + Emitted(v), |h| + 1),
                               AfterRound(c, s, |d|, |v.accepted|)), z, v.cursor, j')
  {
    hide Eval, DrawNode, RoundTree, SourceRollout, AfterRound, Verify, IsDist, Weighed, Stops, HandedOver;
    var r := RunOf(g, prompt, f);
    var n := DraftCount(r, s, h);
    var go := (m: nat, acc: nat, x: Text) =>
        if |x| > |h| then SpecTree(r, src, drawn, c, Cut(r, x, |h| + 1), AfterRound(c, s, m, acc)) else Leaf(0.0);
    var aborted := DrawNode(false, r.p(h), (t: nat) => SpecTree(r, src, drawn, c, h + [t], s.(active := false)));
    RoundDists(r, src, h, n);
    EvalDraft(g, src, drawn, h, n, d, qs, go, aborted, z, k, j, j');
    VerifyEmits(g, h, d, qs, z.accept, k);
  }

  /** Verification never leaves a draft without a token to emit. */
  lemma VerifyEmits(g: Request, h: seq<Token>, d: seq<Token>, q: seq<seq<real>>, u: nat -> real, k: nat)
    requires |q| == |d| > 0
    ensures Emitted(Verify(g, h, d, q, u, k)) != []
  {
    VerifyShape(g, h, d, q, u, k);
  }

  // ---- A generation under way ----

  /** A generation, something to measure of it, the draws it reads, and what the program computes from them. */
  datatype Course = Course(g: Request, prompt: seq<Token>, f: seq<Token> -> real, src: Source, drawn: bool, c: Config,
                           z: Streams, value: real)

  function CourseOf(g: Request, prompt: seq<Token>, f: seq<Token> -> real, src: Source, drawn: bool, c: Config,
                    z: Streams, s: Policy, j: nat): Course {
    Course(g, prompt, f, src, drawn, c, z, Eval(SpecTree(RunOf(g, prompt, f), src, drawn, c, prompt, s), z, 0, j))
  }

  /** Sampling by inverse CDF. */
  ghost predicate Sampling(m: Course) {
    && ValidRequest(m.g) && !m.g.sampler.greedy && DrawsBy(m.g.sampler, m.z.sample) && Fair(m.z)
    && ValidRun(RunOf(m.g, m.prompt, m.f), m.src)
  }

  /** The program, gone on from here, computes the value; at the end, what was delivered measures it. */
  ghost predicate OnCourse(m: Course, out: seq<Token>, stopped: bool, s: Policy, k: nat, j: nat) {
    var r := RunOf(m.g, m.prompt, m.f);
    if stopped || !InBudget(m.g, m.prompt, out) then m.f(out) == m.value
    else !Done(r, m.prompt + out) && Eval(SpecTree(r, m.src, m.drawn, m.c, m.prompt + out, s), m.z, k, j) == m.value
  }

  function RoundLength(g: Request, s: Policy, h: Text): nat {
    DraftCount(RunOf(g, [], (out: seq<Token>) => 0.0), s, h)
  }

  lemma CourseStarts(g: Request, prompt: seq<Token>, f: seq<Token> -> real, src: Source, drawn: bool, c: Config,
                     z: Streams, s: Policy, j: nat)
    ensures OnCourse(CourseOf(g, prompt, f, src, drawn, c, z, s, j), [], false, s, 0, j)
  {
    hide DrawNode, RoundTree;
    DeliverNone(g, prompt, f);
  }

  lemma CoursePlain(m: Course, out: seq<Token>, s: Policy, k: nat, j: nat)
    requires Sampling(m) && OnCourse(m, out, false, s, k, j) && InBudget(m.g, m.prompt, out)
    requires !s.active || !m.src.more(m.prompt + out, RoundLength(m.g, s, m.prompt + out), m.prompt + out)
    ensures var (t, j') := Next(m.g, j, m.prompt + out);
            var (out', stopped) := Deliver(m.g, m.prompt, out, [t]);
            OnCourse(m, out', stopped, s.(active := s.active && m.src.keepArmed(m.prompt + out)), k, j')
  {
    hide Eval, SpecTree, ValidRequest, IsDist, ValidRun, Stops, HandedOver, Draw;
    var h := m.prompt + out;
    EvalPlain(m.g, m.prompt, m.f, m.src, m.drawn, m.c, h, s, m.z, k, j);
    var t := Next(m.g, j, h).0;
    assert (t, Next(m.g, j, h).1) == (Draw(Target(m.g)(h), m.z.sample(j)), j + 1);
    DeliverOne(m.g, m.prompt, m.f, out, t);
    assert h + [t] == m.prompt + (out + [t]);
    assert [t][1..] == [] && Deliver(m.g, m.prompt, out + [t], []) == (out + [t], false);
    CourseGoesOn(m, h + [t], s.(active := s.active && m.src.keepArmed(h)), k, j + 1);
  }

  /** Where the text is done, the program has computed what the text is worth. */
  lemma CourseGoesOn(m: Course, y: Text, s: Policy, k: nat, j: nat)
    ensures var r := RunOf(m.g, m.prompt, m.f);
            Done(r, y) ==> Eval(SpecTree(r, m.src, m.drawn, m.c, y, s), m.z, k, j) == r.payoff(y)
  {
    hide DrawNode, RoundTree;
  }

  lemma CourseDisarmed(m: Course, out: seq<Token>, s: Policy, k: nat, j: nat)
    requires Sampling(m) && OnCourse(m, out, false, s, k, j) && InBudget(m.g, m.prompt, out)
    requires s.active && !m.src.keepArmed(m.prompt + out)
    requires !m.src.more(m.prompt + out, RoundLength(m.g, s, m.prompt + out), m.prompt + out)
    ensures OnCourse(m, out, false, s.(active := false), k, j)
  {
    hide Eval, SpecTree;
    EvalDisarm(m.g, m.prompt, m.f, m.src, m.drawn, m.c, m.prompt + out, s, m.z, k, j);
  }

  lemma CourseAborted(m: Course, out: seq<Token>, s: Policy, k: nat, j: nat)
    requires Sampling(m) && OnCourse(m, out, false, s, k, j) && InBudget(m.g, m.prompt, out)
    requires var h := m.prompt + out;
             var n := RoundLength(m.g, s, h);
             s.active && m.src.more(h, n, h) && SourceRollout(m.src, m.drawn, m.z.sample, h, n, j).failed
    ensures var h := m.prompt + out;
            OnCourse(m, out, false, s.(active := false), k,
                     SourceRollout(m.src, m.drawn, m.z.sample, h, RoundLength(m.g, s, h), j).cursor)
  {
    hide Eval, SpecTree, ValidRequest, IsDist, ValidRun, SourceRollout, Stops, HandedOver, Done;
    EvalAborted(m.g, m.prompt, m.f, m.src, m.drawn, m.c, m.prompt + out, s, m.z, k, j);
  }

  lemma CourseDrafted(m: Course, out: seq<Token>, s: Policy, d: seq<Token>, q: seq<seq<real>>, k: nat, j: nat, j': nat)
    requires Sampling(m) && OnCourse(m, out, false, s, k, j) && InBudget(m.g, m.prompt, out)
    requires var h := m.prompt + out;
             var n := RoundLength(m.g, s, h);
             && s.active && m.src.more(h, n, h) && |q| == |d| > 0
             && SourceRollout(m.src, m.drawn, m.z.sample, h, n, j) == Rolled(d, j', false) && Weighed(m.src, h, n, d, q)
    ensures var p := TakeTurn(m.g, m.prompt, m.z.accept, Progress(out, k, false), Drafted(d, q));
            var v := Verify(m.g, m.prompt + out, d, q, m.z.accept, k);
            OnCourse(m, p.out, p.stopped, AfterRound(m.c, s, |d|, |v.accepted|), p.cursor, j')
  {
    hide Eval, SpecTree, ValidRequest, IsDist, ValidRun, Verify, SourceRollout, Weighed, AfterRound, Stops,
         HandedOver, Done;
    var h := m.prompt + out;
    var v := Verify(m.g, h, d, q, m.z.accept, k);
    VerifyEmits(m.g, h, d, q, m.z.accept, k);
    EvalDrafted(m.g, m.prompt, m.f, m.src, m.drawn, m.c, h, s, d, q, m.z, k, j, j');
    DeliverIsCut(m.g, m.prompt, m.f, out, Emitted(v));
    var y := Cut(RunOf(m.g, m.prompt, m.f), h + Emitted(v), |h| + 1);
    CourseGoesOn(m, y, AfterRound(m.c, s, |d|, |v.accepted|), v.cursor, j');
  }

  // ---- Plain decoding, and the distribution of speculative decoding ----

  /** Plain decoding evaluates the plain program. */
  lemma {:induction false} PlainEval(g: Request, prompt: seq<Token>, f: seq<Token> -> real, out: seq<Token>,
                                     z: Streams, k: nat, j: nat)
    requires ValidRequest(g) && !g.sampler.greedy && DrawsBy(g.sampler, z.sample) && Fair(z)
    requires InBudget(g, prompt, out) ==> !Done(RunOf(g, prompt, f), prompt + out)
    requires !InBudget(g, prompt, out) ==> out == []
    ensures Eval(PlainTree(RunOf(g, prompt, f), prompt + out), z, k, j) == f(PlainFrom(g, prompt, out, j))
    decreases g.maxTokens - |out|
  {
    hide DrawNode, ValidRequest, IsDist, Draw, Stops;
    var r, h := RunOf(g, prompt, f), prompt + out;
    if InBudget(g, prompt, out) {
      TargetDist(g, h);
      DrawNodeEval(false, r.p(h), (t: nat) => PlainTree(r, h + [t]), z, k, j);
      var t := Draw(Target(g)(h), z.sample(j));
      assert Next(g, j, h) == (t, j + 1);
      DeliverOne(g, prompt, f, out, t);
      assert h + [t] == prompt + (out + [t]);
      if !Done(r, h + [t]) { PlainEval(g, prompt, f, out + [t], z, k, j + 1); }
    } else {
      DeliverNone(g, prompt, f);
    }
  }

  /** What the decoder evaluates and what plain decoding evaluates are programs over independent uniform draws, with
      the values of the two loops as their means. Unless draft failures depend on what was drafted these are equal,
      for every quantity computed from the delivered tokens: speculation changes no probability. */
  lemma DecodingIsSampling(g: Request, prompt: seq<Token>, f: seq<Token> -> real, src: Source, drawn: bool, c: Config,
                           s: Policy, z: Streams, j: nat)
    requires ValidRequest(g) && !g.sampler.greedy && DrawsBy(g.sampler, z.sample) && Fair(z)
    requires ValidRun(RunOf(g, prompt, f), src) && ProposesAll(src, drawn) && ValidConfig(c) && ValidPolicy(c, s)
    ensures var r := RunOf(g, prompt, f);
            var spec, plain := SpecTree(r, src, drawn, c, prompt, s), PlainTree(r, prompt);
            && ValidTree(spec) && Mean(spec) == SpecValue(r, src, c, prompt, s)
            && ValidTree(plain) && Mean(plain) == PlainValue(r, prompt)
            && (FailuresBlind(src, c) ==> Mean(spec) == Mean(plain))
            && Eval(plain, z, 0, j) == f(PlainFrom(g, prompt, [], j))
  {
    hide Eval, Mean, SpecTree, PlainTree, ValidTree, ValidRequest, SpecValue, PlainValue;
    var r := RunOf(g, prompt, f);
    forall x: Text ensures IsDist(r.p(x)) { TargetDist(g, x); }
    SpecTreeMean(r, src, drawn, c, prompt, s);
    PlainTreeMean(r, prompt);
    if FailuresBlind(src, c) { SameDistribution(r, src, drawn, c, prompt, s); }
    assert prompt + [] == prompt;
    PlainEval(g, prompt, f, [], z, 0, j);
  }
}
