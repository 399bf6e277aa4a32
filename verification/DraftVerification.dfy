/**
 What a speculative round is made of: drafting, verifying a draft in one batched pass, and handing tokens over.
 Acceptance draws come from an arbitrary stream `u` of numbers in [0, 1).
 */
module DraftVerification {
  import opened Collections
  import opened Sums
  import opened Acceptance
  import opened Backends
  import opened Generation
  import opened LosslessRun

  // ---- Batched verification ----

  /** Accepted prefix of a draft, the token that replaces the first rejected one, and how far the random stream
      was read. */
  datatype Verdict = Verdict(accepted: seq<Token>, correction: Option<Token>, cursor: nat)

  /** What verifying `d` from text `h` decides, token by token. */
  function Verify(g: Request, h: seq<Token>, d: seq<Token>, q: seq<seq<real>>, u: nat -> real, k: nat): Verdict
    requires |q| == |d|
    decreases |d|
  {
    if d == [] then Verdict([], None, k)
    else
      var p := g.sampler.dist(g.net.logits(h), h);
      if AcceptToken(At(p, d[0]), At(q[0], d[0]), u(k)) then
        var rest := Verify(g, h + [d[0]], d[1..], q[1..], u, k + 1);
        Verdict([d[0]] + rest.accepted, rest.correction, rest.cursor)
      else
        Verdict([], Some(Draw(Residual(p, q[0]), u(k + 1))), k + 2)
  }

  /** How verification spends its draws. With probability `AcceptProb` the first drafted token is kept and the rest
      decided on later draws; otherwise it is replaced by a token drawn with the residual's probabilities. These are
      the weights with which the mean over a round is taken. */
  lemma VerifyDraws(g: Request, h: seq<Token>, d: seq<Token>, q: seq<seq<real>>, u: nat -> real, k: nat, t: Token)
    requires |q| == |d| > 0 && IsDist(g.sampler.dist(g.net.logits(h), h)) && IsDist(q[0])
    requires 0.0 <= u(k) < 1.0 && 0.0 < u(k + 1) < 1.0
    ensures var p := g.sampler.dist(g.net.logits(h), h);
            var v := Verify(g, h, d, q, u, k);
            var r := Residual(p, q[0]);
            && |r| == |p| && IsDist(r)
            && (u(k) < AcceptProb(At(p, d[0]), At(q[0], d[0])) <==> v.accepted != [])
            && (v.accepted != [] ==> var rest := Verify(g, h + [d[0]], d[1..], q[1..], u, k + 1);
                                     v == Verdict([d[0]] + rest.accepted, rest.correction, rest.cursor))
            && (v.accepted == [] && t < |p| ==> (v.correction == Some(t) <==> Cum(r, t) < u(k + 1) <= Cum(r, t + 1)))
            && (t < |p| ==> Cum(r, t + 1) - Cum(r, t) == r[t])
  {
    hide IsDist, Residual, Cum;
    var p := g.sampler.dist(g.net.logits(h), h);
    ResidualIsDist(p, q[0]);
    AtNonneg(p, d[0]);
    AtNonneg(q[0], d[0]);
    AcceptMeasure(At(p, d[0]), At(q[0], d[0]), u(k));
    if t < |p| { DrawInterval(Residual(p, q[0]), u(k + 1), t); }
  }

  lemma AtNonneg(p: seq<real>, i: nat)
    requires IsDist(p)
    ensures At(p, i) >= 0.0
  {
  }

  /** The tokens a verdict emits, in order. */
  function Emitted(v: Verdict): seq<Token> {
    match v.correction
    case None => v.accepted
    case Some(t) => v.accepted + [t]
  }

  /** One step of verification. */
  lemma VerifyHead(g: Request, h: seq<Token>, d: seq<Token>, qs: seq<seq<real>>, u: nat -> real, k: nat)
    requires |qs| == |d| > 0
    ensures var v := Verify(g, h, d, qs, u, k);
            var rest := Verify(g, h + [d[0]], d[1..], qs[1..], u, k + 1);
            v == if AcceptToken(At(g.sampler.dist(g.net.logits(h), h), d[0]), At(qs[0], d[0]), u(k)) then
                   Verdict([d[0]] + rest.accepted, rest.correction, rest.cursor)
                 else
                   Verdict([], Some(Draw(Residual(g.sampler.dist(g.net.logits(h), h), qs[0]), u(k + 1))), k + 2)
  {
    hide Residual, Draw, AcceptToken, At;
  }

  lemma EmittedPrepend(t: Token, v: Verdict)
    ensures Emitted(Verdict([t] + v.accepted, v.correction, v.cursor)) == [t] + Emitted(v)
  {
  }

  /** A verdict keeps a prefix of the draft; it corrects exactly when it keeps less than all of it. */
  lemma {:induction false} VerifyShape(g: Request, h: seq<Token>, d: seq<Token>, q: seq<seq<real>>, u: nat -> real,
                                       k: nat)
    requires |q| == |d|
    ensures var v := Verify(g, h, d, q, u, k);
            v.accepted <= d && (v.correction.None? <==> v.accepted == d)
    decreases |d|
  {
    if d != [] {
      VerifyShape(g, h + [d[0]], d[1..], q[1..], u, k + 1);
      assert d == [d[0]] + d[1..];
    }
  }

  function GreedyToken(g: Request, h: seq<Token>): Token {
    Argmax(g.sampler.dist(g.net.logits(h), h))
  }

  /** Every token of `e` is the one greedy decoding picks after the text before it. */
  ghost predicate GreedyRun(g: Request, h: seq<Token>, e: seq<Token>)
    decreases |e|
  {
    e != [] ==> e[0] == GreedyToken(g, h) && GreedyRun(g, h + [e[0]], e[1..])
  }

  ghost predicate OneHotDraft(d: seq<Token>, q: seq<seq<real>>) {
    |q| == |d| && forall i | 0 <= i < |d| :: d[i] < |q[i]| && q[i] == OneHot(|q[i]|, d[i])
  }

  ghost predicate Uniform(u: nat -> real) {
    forall i: nat :: 0.0 <= u(i) < 1.0
  }

  ghost predicate ValidRequest(g: Request) {
    ValidNetwork(g.net) && ValidSampler(g.sampler)
  }

  /** One-hot target against one-hot draft: the residual is the target. */
  lemma OneHotResidual(n: nat, a: nat, m: nat, d: nat, w: real)
    requires a < n && d < m && a != d && 0.0 <= w < 1.0
    ensures Draw(Residual(OneHot(n, a), OneHot(m, d)), w) == a
  {
    var p, q := OneHot(n, a), OneHot(m, d);
    SumSingle((i: nat) => Excess(At(p, i), At(q, i)), a, n);
    assert ExcessMass(p, q) == 1.0;
    assert Residual(p, q) == p;
    OneHotIsDist(n, a);
    DrawSupport(p, w);
  }

  /** The server's greedy sampler, one-hot at the largest penalized logit and drawing by inverse CDF, is a
      valid sampler. */
  lemma GreedySamplerIsValid(penalized: (Logits, seq<Token>) -> Logits, uniform: Rng -> real, advance: Rng -> Rng)
    requires forall l: Logits, h: seq<Token> :: |penalized(l, h)| == |l|
    requires forall rng: Rng :: 0.0 <= uniform(rng) < 1.0
    ensures ValidSampler(Sampler(true, (l: Logits, h: seq<Token>) => OneHot(|l|, Argmax(penalized(l, h))),
                                 (rng: Rng, p: seq<real>) => (Draw(p, uniform(rng)), advance(rng))))
  {
    var s := Sampler(true, (l: Logits, h: seq<Token>) => OneHot(|l|, Argmax(penalized(l, h))),
                     (rng: Rng, p: seq<real>) => (Draw(p, uniform(rng)), advance(rng)));
    forall l: Logits, h: seq<Token> | |l| > 0
      ensures |s.dist(l, h)| == |l| && IsDist(s.dist(l, h)) && s.dist(l, h) == OneHot(|l|, Argmax(s.dist(l, h)))
    {
      assert |penalized(l, h)| == |l|;
      OneHotIsDist(|l|, Argmax(penalized(l, h)));
      ArgmaxOneHot(|l|, Argmax(penalized(l, h)));
    }
    forall rng: Rng, p: seq<real> | IsDist(p) ensures s.draw(rng, p).0 < |p| {
      DrawSupport(p, uniform(rng));
    }
    forall rng: Rng, n: nat, a: nat | a < n ensures s.draw(rng, OneHot(n, a)).0 == a {
      OneHotIsDist(n, a);
      DrawSupport(OneHot(n, a), uniform(rng));
    }
  }

  /** Greedy acceptance: a drafted token is kept exactly when it is the greedy one, and is otherwise replaced by it. */
  lemma GreedyAccept(g: Request, h: seq<Token>, d: Token, q: seq<real>, w: real, w': real)
    requires ValidRequest(g) && g.sampler.greedy && d < |q| && q == OneHot(|q|, d)
    requires 0.0 <= w < 1.0 && 0.0 <= w' < 1.0
    ensures var p := g.sampler.dist(g.net.logits(h), h);
            && (AcceptToken(At(p, d), At(q, d), w) <==> d == GreedyToken(g, h))
            && (d != GreedyToken(g, h) ==> Draw(Residual(p, q), w') == GreedyToken(g, h))
  {
    var l := g.net.logits(h);
    var a := GreedyToken(g, h);
    assert |l| > 0;
    assert g.sampler.dist(l, h) == OneHot(|l|, a) && a < |l|;
    assert w * At(q, d) == w;
    if d != a { OneHotResidual(|l|, a, |q|, d, w'); }
  }

  lemma NothingVerified(g: Request, h: seq<Token>, q: seq<seq<real>>, u: nat -> real, k: nat)
    requires q == []
    ensures Verify(g, h, [], q, u, k) == Verdict([], None, k) && Emitted(Verify(g, h, [], q, u, k)) == []
  {
  }

  /** Greedy verification emits exactly what greedy decoding would, whatever was drafted and whatever was drawn. */
  lemma {:induction false} VerifyGreedy(g: Request, h: seq<Token>, d: seq<Token>, q: seq<seq<real>>, u: nat -> real,
                                        k: nat)
    requires ValidRequest(g) && g.sampler.greedy && Uniform(u) && OneHotDraft(d, q)
    ensures GreedyRun(g, h, Emitted(Verify(g, h, d, q, u, k)))
    decreases |d|
  {
    hide Verify, ValidRequest;
    if d == [] {
      NothingVerified(g, h, q, u, k);
    } else {
      var a := GreedyToken(g, h);
      assert 0.0 <= u(k) < 1.0 && 0.0 <= u(k + 1) < 1.0;
      GreedyAccept(g, h, d[0], q[0], u(k), u(k + 1));
      VerifyHead(g, h, d, q, u, k);
      var e := Emitted(Verify(g, h, d, q, u, k));
      if d[0] == a {
        var rest := Verify(g, h + [a], d[1..], q[1..], u, k + 1);
        VerifyGreedy(g, h + [a], d[1..], q[1..], u, k + 1);
        EmittedPrepend(a, rest);
        assert e[1..] == Emitted(rest);
      } else {
        assert e == [] + [a] && e[1..] == [];
      }
    }
  }

  function Prepend(acc: seq<Token>, v: Verdict): Verdict {
    v.(accepted := acc + v.accepted)
  }

  lemma PrependAccept(g: Request, acc: seq<Token>, h: seq<Token>, d: seq<Token>, q: seq<seq<real>>, u: nat -> real,
                      k: nat)
    requires |q| == |d| > 0
    requires AcceptToken(At(g.sampler.dist(g.net.logits(h), h), d[0]), At(q[0], d[0]), u(k))
    ensures Prepend(acc, Verify(g, h, d, q, u, k))
              == Prepend(acc + [d[0]], Verify(g, h + [d[0]], d[1..], q[1..], u, k + 1))
  {
    var rest := Verify(g, h + [d[0]], d[1..], q[1..], u, k + 1);
    assert acc + ([d[0]] + rest.accepted) == (acc + [d[0]]) + rest.accepted;
  }

  /** The verification loop: `logits[i]` are the target's logits at drafted token `i`. */
  method DecideDraft(g: Request, logits: seq<Logits>, d: seq<Token>, q: seq<seq<real>>, recent: seq<Token>,
                     u: nat -> real, k: nat) returns (v: Verdict)
    requires |q| == |d| == |logits|
    requires forall i | 0 <= i < |d| :: logits[i] == g.net.logits(recent + d[..i])
    ensures v == Verify(g, recent, d, q, u, k)
  {
    hide Verify, Residual, Draw, AcceptToken, IsDist;
    var accepted: seq<Token> := [];
    var history := recent;
    var cursor := k;
    assert d[0..] == d && q[0..] == q;
    assert Prepend([], Verify(g, recent, d, q, u, k)) == Verify(g, recent, d, q, u, k);
    for i := 0 to |d|
      invariant accepted == d[..i] && history == recent + accepted
      invariant Verify(g, recent, d, q, u, k) == Prepend(accepted, Verify(g, history, d[i..], q[i..], u, cursor))
    {
      var p := g.sampler.dist(logits[i], history);
      assert d[i..][1..] == d[i + 1..] && q[i..][1..] == q[i + 1..];
      if !AcceptToken(At(p, d[i]), At(q[i], d[i]), u(cursor)) {
        var residual := ResidualDistribution(p, q[i]);
        var t := DrawFrom(residual, u(cursor + 1));
        VerifyHead(g, history, d[i..], q[i..], u, cursor);
        return Prepend(accepted, Verdict([], Some(t), cursor + 2));
      }
      PrependAccept(g, accepted, history, d[i..], q[i..], u, cursor);
      accepted := accepted + [d[i]];
      history := history + [d[i]];
      cursor := cursor + 1;
    }
    assert d[|d|..] == [];
    NothingVerified(g, history, q[|d|..], u, cursor);
    v := Prepend(accepted, Verdict([], None, cursor));
  }

  /** One batched target pass decides the whole draft. On entry the target holds everything but `last`; on exit it
      also holds `last` and every drafted token but the final one. */
  method VerifyBatch(target: Backend, g: Request, last: Token, d: seq<Token>, q: seq<seq<real>>, recent: seq<Token>,
                     u: nat -> real, k: nat) returns (ok: bool, v: Verdict)
    requires g.net == target.net
    requires d != [] && |q| == |d| && target.kv + [last] == recent
    modifies target
    ensures ok ==> v == Verify(g, recent, d, q, u, k)
    ensures ok ==> target.kv == recent + d[..|d| - 1]
    ensures target.Reliable() ==> ok
    ensures target.failures == old(target.failures) + (if ok then 0 else 1)
  {
    var batch := [last] + d[..|d| - 1];
    var logits: seq<Logits>;
    ok, logits := target.DecodeBatch(batch);
    v := Verdict([], None, k);
    if !ok { return; }
    forall i | 0 <= i < |d| ensures logits[i] == g.net.logits(recent + d[..i]) {
      assert batch[..i + 1] == [last] + d[..i];
      assert old(target.kv) + batch[..i + 1] == recent + d[..i];
    }
    v := DecideDraft(g, logits, d, q, recent, u, k);
  }

  // ---- Draft sources ----

  /** Proposals from the text itself, the archive or the form prompter: a function of the text and of how many tokens
      may be drafted. */
  type Lookup = (seq<Token>, nat) -> seq<Token>

  /** Proposals are tokens of the vocabulary, as many as asked for at most. */
  ghost predicate ValidLookup(lookup: Lookup, vocab: nat) {
    forall h: seq<Token>, n: nat :: |lookup(h, n)| <= n && forall i | 0 <= i < |lookup(h, n)| :: lookup(h, n)[i] < vocab
  }

  /** A draft model, sampled like the target: it goes on until its end-of-sequence token, and starts only from a token
      it has. Its passes fail when they reach certain texts. */
  function ModelSource(s: Sampler, net: Network, fails: seq<Token> -> bool): Source {
    Source(net.vocab, (h: Text, n: nat, x: Text) => s.dist(net.logits(x), x),
           (h: Text, n: nat, x: Text) =>
             if |x| <= |h| then h != [] && h[|h| - 1] < net.vocab else x[|x| - 1] != net.eos,
           (h: Text, n: nat, x: Text) => fails(x), (h: Text) => false)
  }

  /** The texts a backend is known to fail at. */
  function FailsOf(faults: Faults): seq<Token> -> bool {
    if faults.Reaching? then faults.fails else (x: seq<Token>) => false
  }

  function Proposed(lookup: Lookup, h: Text, n: nat, i: int): Token {
    if 0 <= i < |lookup(h, n)| then lookup(h, n)[i] else 0
  }

  /** Proposals without a model: each token carries all its weight, and a text without any keeps speculation on. */
  function LookupSource(vocab: nat, lookup: Lookup): Source {
    Source(vocab, (h: Text, n: nat, x: Text) => OneHot(vocab, Proposed(lookup, h, n, |x| - |h|)),
           (h: Text, n: nat, x: Text) => |x| - |h| < |lookup(h, n)|,
           (h: Text, n: nat, x: Text) => false, (h: Text) => true)
  }

  /** What a rollout arrives at: the draft, how far the sampler's draws were read, and whether the model
      failed on it. */
  datatype Rolled = Rolled(draft: seq<nat>, cursor: nat, failed: bool)

  /** A source draws each token from the sampler's draws `w`, or proposes the only one its distribution has. */
  function Rollout(q: Text -> seq<real>, more: Text -> bool, fails: Text -> bool, drawn: bool, w: nat -> real,
                   h: Text, d: seq<nat>, n: nat, j: nat): Rolled
    decreases n
  {
    if n == 0 || (d != [] && !more(h + d)) then Rolled(d, j, false)
    else if fails(h + d) then Rolled(d, j, true)
    else if drawn then Rollout(q, more, fails, drawn, w, h, d + [Draw(q(h + d), w(j))], n - 1, j + 1)
    else Rollout(q, more, fails, drawn, w, h, d + [Argmax(q(h + d))], n - 1, j)
  }

  function SourceRollout(src: Source, drawn: bool, w: nat -> real, h: Text, n: nat, j: nat): Rolled {
    Rollout(Within(src.q, h, n), Within(src.more, h, n), Within(src.fails, h, n), drawn, w, h, [], n, j)
  }

  /** The distributions a draft was drawn from. */
  ghost predicate Weighed(src: Source, h: Text, n: nat, d: seq<Token>, q: seq<seq<real>>) {
    |q| == |d| && forall i | 0 <= i < |d| :: q[i] == src.q(h, n, h + d[..i])
  }

  /** The sampler draws by inverse CDF from the stream `w`, one number a token. */
  ghost predicate DrawsBy(s: Sampler, w: nat -> real) {
    forall rng: Rng, p: seq<real> :: s.draw(rng, p) == (Draw(p, w(rng)), rng + 1)
  }

  lemma LookupNext(vocab: nat, lookup: Lookup, h: Text, n: nat, d: seq<nat>)
    requires ValidLookup(lookup, vocab) && d <= lookup(h, n)
    ensures var src := LookupSource(vocab, lookup);
            && (Within(src.more, h, n)(h + d) <==> |d| < |lookup(h, n)|) && !Within(src.fails, h, n)(h + d)
            && (|d| < |lookup(h, n)| ==>
                  Argmax(Within(src.q, h, n)(h + d)) == lookup(h, n)[|d|] && d + [lookup(h, n)[|d|]] <= lookup(h, n))
  {
    hide OneHot, Argmax;
    var all := lookup(h, n);
    assert |h + d| - |h| == |d|;
    if |d| < |all| {
      assert Proposed(lookup, h, n, |d|) == all[|d|] < vocab;
      ArgmaxOneHot(vocab, all[|d|]);
      assert d + [all[|d|]] == all[..|d| + 1];
    }
  }

  /** Without a model the draft is the proposal itself. */
  lemma {:induction false} LookupRollout(vocab: nat, lookup: Lookup, w: nat -> real, h: Text, n: nat, d: seq<nat>,
                                         j: nat)
    requires ValidLookup(lookup, vocab) && d <= lookup(h, n) && lookup(h, n) != []
    ensures var src := LookupSource(vocab, lookup);
            Rollout(Within(src.q, h, n), Within(src.more, h, n), Within(src.fails, h, n), false, w, h, d, n - |d|, j)
              == Rolled(lookup(h, n), j, false)
    decreases n - |d|
  {
    hide LookupSource, Within, Argmax;
    LookupNext(vocab, lookup, h, n, d);
    assert |lookup(h, n)| <= n;
    if |d| == |lookup(h, n)| {
      assert d == lookup(h, n);
    } else {
      LookupRollout(vocab, lookup, w, h, n, d + [lookup(h, n)[|d|]], j);
    }
  }

  // ---- Drafting ----

  ghost predicate ValidDraft(g: Request, d: seq<Token>, q: seq<seq<real>>, n: int) {
    && |d| == |q| && |d| <= n
    && (forall i | 0 <= i < |d| :: d[i] < |q[i]| && d[i] < g.net.vocab)
    && (g.sampler.greedy ==> OneHotDraft(d, q))
  }

  /** A sampled token lies in the vocabulary and carries, when greedy, all the weight of its distribution. */
  lemma DrawnToken(g: Request, logits: Logits, recent: seq<Token>, rng: Rng)
    requires ValidSampler(g.sampler) && |logits| > 0
    ensures var p := g.sampler.dist(logits, recent);
            var t := g.sampler.draw(rng, p).0;
            && |p| == |logits| && t < |p| && (g.sampler.greedy ==> p == OneHot(|p|, t))
  {
    var p := g.sampler.dist(logits, recent);
    assert IsDist(p);
    if g.sampler.greedy { assert p == OneHot(|logits|, Argmax(p)); }
  }

  lemma DraftSnoc(g: Request, d: seq<Token>, q: seq<seq<real>>, n: int, t: Token, p: seq<real>)
    requires ValidDraft(g, d, q, n) && |d| < n
    requires t < |p| <= g.net.vocab && (g.sampler.greedy ==> p == OneHot(|p|, t))
    ensures ValidDraft(g, d + [t], q + [p], n)
  {
  }

  /** Rolls the draft model forward. On success it additionally holds `last` and every drafted token but the
      final one. */
  method GenerateDraft(draft: Backend, g: Request, last: Token, recent: seq<Token>, n: nat, rng: Rng,
                       ghost w: nat -> real)
    returns (ok: bool, d: seq<Token>, q: seq<seq<real>>, rng': Rng)
    requires ValidRequest(g) && ValidNetwork(draft.net) && draft.net.vocab <= g.net.vocab
    requires n > 0 && draft.kv + [last] == recent
    modifies draft
    ensures ok ==> d != [] && ValidDraft(g, d, q, n) && draft.kv == recent + d[..|d| - 1]
    ensures draft.Reliable() ==> ok
    ensures draft.failures == old(draft.failures) + (if ok then 0 else 1)
    ensures ok ==> |d| == n || d[|d| - 1] == draft.net.eos
    ensures ok ==> Weighed(ModelSource(g.sampler, draft.net, FailsOf(draft.faults)), recent, n, d, q)
    ensures DrawsBy(g.sampler, w) && draft.faults.Reaching? ==>
              SourceRollout(ModelSource(g.sampler, draft.net, FailsOf(draft.faults)), true, w, recent, n, rng)
                == Rolled(d, rng', !ok)
  {
    hide Rolling, Rolls, Weighed, ModelSource, ValidDraft, ValidSampler, DrawsBy, SourceRollout;
    d, q, rng', ok := [], [], rng, true;
    RollingStart(g, draft, w, recent, n, rng);
    var cur := last;
    var history := recent;
    while |d| < n
      invariant draft.failures == old(draft.failures)
      invariant |d| <= n && ok && Rolling(g, draft, recent, n, d, q)
      invariant DrawsBy(g.sampler, w) ==> Rolls(g, draft, w, recent, n, rng, d, rng')
      invariant draft.kv + [cur] == history == recent + d
      invariant d != [] ==> d[|d| - 1] != draft.net.eos && draft.kv == recent + d[..|d| - 1]
      decreases n - |d|
    {
      var logits;
      ok, logits := draft.DecodeAppend([cur]);
      if !ok {
        RollsFails(g, draft, w, recent, n, rng, d, rng');
        return;
      }
      var p := g.sampler.dist(logits, history);
      var (next, r) := g.sampler.draw(rng', p);
      RollingNext(g, draft, recent, n, d, q, rng');
      RollsNext(g, draft, w, recent, n, rng, d, rng');
      Grown(recent, d, next);
      d, q, rng' := d + [next], q + [p], r;
      if next == draft.net.eos {
        RollingEnds(g, draft, recent, n, d, q);
        RollsEnds(g, draft, w, recent, n, rng, d, rng');
        return;
      }
      history := history + [next];
      cur := next;
    }
    RollingEnds(g, draft, recent, n, d, q);
    RollsEnds(g, draft, w, recent, n, rng, d, rng');
  }

  function SourceOf(g: Request, draft: Backend): Source {
    ModelSource(g.sampler, draft.net, FailsOf(draft.faults))
  }

  /** A model's rollout on its way: what is drafted is a draft with the distributions it was drawn from. */
  ghost predicate Rolling(g: Request, draft: Backend, h: Text, n: nat, d: seq<Token>, q: seq<seq<real>>) {
    |d| <= n && ValidDraft(g, d, q, n) && Weighed(SourceOf(g, draft), h, n, d, q)
  }

  /** Drawing on from here is drawing from the start, unless the model fails where none is known to. */
  ghost predicate Rolls(g: Request, draft: Backend, w: nat -> real, h: Text, n: nat, rng0: Rng, d: seq<Token>,
                        rng: Rng) {
    var src := SourceOf(g, draft);
    |d| <= n && (draft.faults.Reaching? ==>
      Rollout(Within(src.q, h, n), Within(src.more, h, n), Within(src.fails, h, n), true, w, h, d, n - |d|, rng)
        == SourceRollout(src, true, w, h, n, rng0))
  }

  lemma RollingStart(g: Request, draft: Backend, w: nat -> real, h: Text, n: nat, rng: Rng)
    ensures Rolling(g, draft, h, n, [], []) && Rolls(g, draft, w, h, n, rng, [], rng)
  {
    hide Rollout, ModelSource;
  }

  lemma NetworkFacts(net: Network, x: Text)
    requires ValidNetwork(net)
    ensures |net.logits(x)| == net.vocab > 0
  {
  }

  lemma RollingNext(g: Request, draft: Backend, h: Text, n: nat, d: seq<Token>, q: seq<seq<real>>, rng: Rng)
    requires ValidRequest(g) && ValidNetwork(draft.net) && draft.net.vocab <= g.net.vocab
    requires Rolling(g, draft, h, n, d, q) && |d| < n
    ensures var p := g.sampler.dist(draft.net.logits(h + d), h + d);
            Rolling(g, draft, h, n, d + [g.sampler.draw(rng, p).0], q + [p])
  {
    hide ValidDraft, ValidSampler, ValidNetwork, Weighed, ModelSource, OneHot, Draw;
    var p := g.sampler.dist(draft.net.logits(h + d), h + d);
    var t := g.sampler.draw(rng, p).0;
    NetworkFacts(draft.net, h + d);
    DrawnToken(g, draft.net.logits(h + d), h + d, rng);
    DraftSnoc(g, d, q, n, t, p);
    ModelNext(g.sampler, draft.net, FailsOf(draft.faults), h, n, d, q, t);
  }

  /** A draw of the sampler is a draw of the rollout. */
  lemma RollsNext(g: Request, draft: Backend, w: nat -> real, h: Text, n: nat, rng0: Rng, d: seq<Token>, rng: Rng)
    requires |d| < n && (d != [] ==> d[|d| - 1] != draft.net.eos)
    requires draft.faults.Reaching? ==> !draft.faults.fails(h + d)
    requires DrawsBy(g.sampler, w) ==> Rolls(g, draft, w, h, n, rng0, d, rng)
    ensures var p := g.sampler.dist(draft.net.logits(h + d), h + d);
            var (t, r) := g.sampler.draw(rng, p);
            DrawsBy(g.sampler, w) ==> Rolls(g, draft, w, h, n, rng0, d + [t], r)
  {
    hide Rollout, SourceRollout, ModelSource, OneHot, Draw, DrawsBy, ValidNetwork;
    if DrawsBy(g.sampler, w) {
      var src := SourceOf(g, draft);
      var p := g.sampler.dist(draft.net.logits(h + d), h + d);
      DrawsByFacts(g.sampler, w, rng, p);
      ModelAt(g.sampler, draft.net, FailsOf(draft.faults), h, n, d);
      RolloutNext(Within(src.q, h, n), Within(src.more, h, n), Within(src.fails, h, n), w, h, d, n - |d|, rng);
    }
  }

  lemma DrawsByFacts(s: Sampler, w: nat -> real, rng: Rng, p: seq<real>)
    ensures DrawsBy(s, w) ==> s.draw(rng, p) == (Draw(p, w(rng)), rng + 1)
  {
    hide Draw;
  }

  lemma RollsFails(g: Request, draft: Backend, w: nat -> real, h: Text, n: nat, rng0: Rng, d: seq<Token>, rng: Rng)
    requires |d| < n && (d != [] ==> d[|d| - 1] != draft.net.eos)
    requires DrawsBy(g.sampler, w) ==> Rolls(g, draft, w, h, n, rng0, d, rng)
    requires draft.faults.Reaching? ==> draft.faults.fails(h + d)
    ensures DrawsBy(g.sampler, w) && draft.faults.Reaching? ==>
              SourceRollout(SourceOf(g, draft), true, w, h, n, rng0) == Rolled(d, rng, true)
  {
    hide SourceRollout, ModelSource, DrawsBy, Draw, ValidNetwork;
    ModelAt(g.sampler, draft.net, FailsOf(draft.faults), h, n, d);
  }

  lemma RollingEnds(g: Request, draft: Backend, h: Text, n: nat, d: seq<Token>, q: seq<seq<real>>)
    requires Rolling(g, draft, h, n, d, q)
    ensures ValidDraft(g, d, q, n) && Weighed(SourceOf(g, draft), h, n, d, q)
  {
  }

  lemma RollsEnds(g: Request, draft: Backend, w: nat -> real, h: Text, n: nat, rng0: Rng, d: seq<Token>, rng: Rng)
    requires d != [] && (|d| == n || d[|d| - 1] == draft.net.eos)
    requires DrawsBy(g.sampler, w) ==> Rolls(g, draft, w, h, n, rng0, d, rng)
    ensures DrawsBy(g.sampler, w) && draft.faults.Reaching? ==>
              SourceRollout(SourceOf(g, draft), true, w, h, n, rng0) == Rolled(d, rng, false)
  {
    hide SourceRollout, ModelSource, DrawsBy, Draw, ValidNetwork;
    ModelAt(g.sampler, draft.net, FailsOf(draft.faults), h, n, d);
  }

  lemma Grown(text: seq<Token>, d: seq<Token>, t: Token)
    ensures text + (d + [t])[..|d + [t]| - 1] == text + d && (text + d) + [t] == text + (d + [t])
  {
    assert (d + [t])[..|d + [t]| - 1] == d;
  }

  /** What a model source says of a text it has drafted. */
  lemma ModelAt(s: Sampler, net: Network, fails: seq<Token> -> bool, h: Text, n: nat, d: seq<Token>)
    ensures var src := ModelSource(s, net, fails);
            && Within(src.q, h, n)(h + d) == s.dist(net.logits(h + d), h + d)
            && (d != [] ==> (Within(src.more, h, n)(h + d) <==> d[|d| - 1] != net.eos))
            && (Within(src.fails, h, n)(h + d) <==> fails(h + d))
  {
  }

  /** One more drafted token, with the distribution it was drawn from. */
  lemma ModelNext(s: Sampler, net: Network, fails: seq<Token> -> bool, h: Text, n: nat, d: seq<Token>,
                  q: seq<seq<real>>, t: Token)
    requires Weighed(ModelSource(s, net, fails), h, n, d, q)
    ensures Weighed(ModelSource(s, net, fails), h, n, d + [t], q + [s.dist(net.logits(h + d), h + d)])
  {
    var e := d + [t];
    forall i | 0 <= i < |e| ensures e[..i] == if i < |d| then d[..i] else d {
    }
  }

  lemma RolloutNext(q: Text -> seq<real>, more: Text -> bool, fails: Text -> bool, w: nat -> real, h: Text,
                    d: seq<nat>, n: nat, j: nat)
    requires n > 0 && (d == [] || more(h + d)) && !fails(h + d)
    ensures Rollout(q, more, fails, true, w, h, d, n, j)
              == Rollout(q, more, fails, true, w, h, d + [Draw(q(h + d), w(j))], n - 1, j + 1)
  {
    hide Draw;
  }

  /** Weighs what was proposed without a model: each token carries all its weight. */
  method LookupDraft(g: Request, lookup: Lookup, history: seq<Token>, n: nat) returns (d: seq<Token>, q: seq<seq<real>>)
    requires ValidRequest(g) && ValidLookup(lookup, g.net.vocab)
    ensures ValidDraft(g, d, q, n) && d == lookup(history, n)
    ensures Weighed(LookupSource(g.net.vocab, lookup), history, n, d, q)
  {
    d := lookup(history, n);
    q := seq(|d|, i requires 0 <= i < |d| => OneHot(g.net.vocab, d[i]));
  }

  // ---- Emission ----

  predicate InBudget(g: Request, prompt: seq<Token>, out: seq<Token>) {
    |out| < g.maxTokens && |prompt| + |out| < g.net.nCtx
  }

  /** What handing a batch over delivers in all, and whether generation ends there: nothing follows a token that ends
      generation, a refusal, or the last token of a budget. */
  function Deliver(g: Request, prompt: seq<Token>, out: seq<Token>, batch: seq<Token>): (seq<Token>, bool)
    decreases |batch|
  {
    if batch == [] then (out, false)
    else if g.net.eog(batch[0]) then (out, true)
    else
      var next := out + [batch[0]];
      if !g.keepGoing(next) then (next, true)
      else if !InBudget(g, prompt, next) then (next, false)
      else Deliver(g, prompt, next, batch[1..])
  }

  /** Hands tokens over until one ends generation, the callback refuses, or a budget is reached. */
  method Emit(g: Request, prompt: seq<Token>, out: seq<Token>, batch: seq<Token>, ghost rng: Rng)
    returns (out': seq<Token>, stopped: bool)
    requires batch != [] && InBudget(g, prompt, out)
    ensures (out', stopped) == Deliver(g, prompt, out, batch)
    ensures out <= out' <= out + batch && |out'| <= g.maxTokens
    ensures !stopped ==> |out| < |out'| && (InBudget(g, prompt, out') ==> out' == out + batch)
    ensures g.sampler.greedy && GreedyRun(g, prompt + out, batch) ==>
              PlainFrom(g, prompt, out, rng) == if stopped then out' else PlainFrom(g, prompt, out', rng)
  {
    out', stopped := out, false;
    assert batch[0..] == batch;
    for i := 0 to |batch|
      invariant out' == out + batch[..i] && InBudget(g, prompt, out')
      invariant Deliver(g, prompt, out, batch) == Deliver(g, prompt, out', batch[i..])
      invariant g.sampler.greedy && GreedyRun(g, prompt + out, batch) ==>
                  && GreedyRun(g, prompt + out', batch[i..])
                  && PlainFrom(g, prompt, out, rng) == PlainFrom(g, prompt, out', rng)
    {
      var t := batch[i];
      assert batch[i..][1..] == batch[i + 1..];
      assert (prompt + out') + [t] == prompt + (out' + [t]);
      assert out' + [t] == out + batch[..i + 1];
      if g.net.eog(t) { return out', true; }
      out' := out' + [t];
      if !g.keepGoing(out') { return out', true; }
      if !InBudget(g, prompt, out') { return; }
    }
    assert batch[..|batch|] == batch;
  }

  // ---- Histories ----

  /** One turn of the loop that delivered something or ended it: a draft with its distributions, or a plain step. */
  datatype Turn = Drafted(draft: seq<Token>, weights: seq<seq<real>>) | Plain(rng: Rng)

  /** What was delivered, how far the acceptance draws were read, and whether generation has ended. */
  datatype Progress = Progress(out: seq<Token>, cursor: nat, stopped: bool)

  function TakeTurn(g: Request, prompt: seq<Token>, u: nat -> real, s: Progress, turn: Turn): Progress {
    match turn
    case Drafted(d, q) =>
      if |d| != |q| then s
      else
        var v := Verify(g, prompt + s.out, d, q, u, s.cursor);
        var (out, stopped) := Deliver(g, prompt, s.out, Emitted(v));
        Progress(out, v.cursor, stopped)
    case Plain(rng) =>
      var (out, stopped) := Deliver(g, prompt, s.out, [Next(g, rng, prompt + s.out).0]);
      Progress(out, s.cursor, stopped)
  }

  /** The state the loop is in after the given turns, every one of them verified on draws of its own. */
  function Replay(g: Request, prompt: seq<Token>, u: nat -> real, turns: seq<Turn>): Progress {
    if turns == [] then Progress([], 0, false)
    else TakeTurn(g, prompt, u, Replay(g, prompt, u, turns[..|turns| - 1]), turns[|turns| - 1])
  }

  /** A turn is taken only while generation goes on, and drafts only tokens that exist and fit the context. */
  ghost predicate Playable(g: Request, prompt: seq<Token>, s: Progress, turn: Turn) {
    && !s.stopped && InBudget(g, prompt, s.out)
    && (turn.Drafted? ==> turn.draft != [] && ValidDraft(g, turn.draft, turn.weights, g.net.nCtx - |prompt + s.out|))
  }

  ghost predicate History(g: Request, prompt: seq<Token>, u: nat -> real, turns: seq<Turn>) {
    forall i | 0 <= i < |turns| :: Playable(g, prompt, Replay(g, prompt, u, turns[..i]), turns[i])
  }

  lemma NextTurn(g: Request, prompt: seq<Token>, u: nat -> real, turns: seq<Turn>, turn: Turn)
    requires History(g, prompt, u, turns) && Playable(g, prompt, Replay(g, prompt, u, turns), turn)
    ensures History(g, prompt, u, turns + [turn])
    ensures Replay(g, prompt, u, turns + [turn]) == TakeTurn(g, prompt, u, Replay(g, prompt, u, turns), turn)
  {
    var all := turns + [turn];
    assert all[..|turns|] == turns;
    forall i | 0 <= i < |all| ensures Playable(g, prompt, Replay(g, prompt, u, all[..i]), all[i]) {
      assert all[..i] == turns[..i] || i > |turns|;
    }
  }

  lemma NoTurns(g: Request, prompt: seq<Token>, u: nat -> real)
    ensures History(g, prompt, u, []) && Replay(g, prompt, u, []) == Progress([], 0, false)
  {
  }

  lemma NextDrafted(g: Request, prompt: seq<Token>, u: nat -> real, turns: seq<Turn>, out: seq<Token>, k: nat,
                    d: seq<Token>, q: seq<seq<real>>)
    requires History(g, prompt, u, turns) && Replay(g, prompt, u, turns) == Progress(out, k, false)
    requires InBudget(g, prompt, out) && d != [] && ValidDraft(g, d, q, g.net.nCtx - |prompt + out|)
    ensures History(g, prompt, u, turns + [Drafted(d, q)])
    ensures Replay(g, prompt, u, turns + [Drafted(d, q)])
              == TakeTurn(g, prompt, u, Progress(out, k, false), Drafted(d, q))
  {
    NextTurn(g, prompt, u, turns, Drafted(d, q));
  }

  lemma NextPlain(g: Request, prompt: seq<Token>, u: nat -> real, turns: seq<Turn>, out: seq<Token>, k: nat, rng: Rng)
    requires History(g, prompt, u, turns) && Replay(g, prompt, u, turns) == Progress(out, k, false)
    requires InBudget(g, prompt, out)
    ensures History(g, prompt, u, turns + [Plain(rng)])
    ensures var (out', stopped) := Deliver(g, prompt, out, [Next(g, rng, prompt + out).0]);
            Replay(g, prompt, u, turns + [Plain(rng)]) == Progress(out', k, stopped)
  {
    NextTurn(g, prompt, u, turns, Plain(rng));
  }
}
