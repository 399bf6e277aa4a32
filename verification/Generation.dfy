/**
 What plain generation delivers: the reference every fast path is compared with. A generation is
 described by the network, the sampler, the token budget and the caller's callback; the callback is
 a function of everything delivered so far, so it may stop at any point.
 */
module Generation {
  import opened Backends
  import opened Sums

  type Rng = nat

  /** How a generation ends: of itself, refused at once, or by a failing backend. */
  datatype Outcome = Completed | Rejected | BackendFailed

  /** `dist` is the sampling distribution after penalty, temperature and top-p; `draw` consumes randomness. */
  datatype Sampler = Sampler(greedy: bool, dist: (Logits, seq<Token>) -> seq<real>,
                             draw: (Rng, seq<real>) -> (Token, Rng))

  function OneHot(n: nat, a: nat): seq<real> {
    seq(n, (i: nat) => if i == a then 1.0 else 0.0)
  }

  /** Index of the first largest entry. */
  function ArgmaxUpTo(p: seq<real>, n: nat): (best: nat)
    requires 0 < n <= |p|
    ensures best < n
    ensures forall i | 0 <= i < n :: p[i] <= p[best]
    ensures forall i | 0 <= i < best :: p[i] < p[best]
  {
    if n == 1 then 0
    else
      var a := ArgmaxUpTo(p, n - 1);
      if p[n - 1] > p[a] then n - 1 else a
  }

  function Argmax(p: seq<real>): nat {
    if |p| == 0 then 0 else ArgmaxUpTo(p, |p|)
  }

  lemma ArgmaxOneHot(n: nat, a: nat)
    requires a < n
    ensures Argmax(OneHot(n, a)) == a
  {
    var p := OneHot(n, a);
    assert p[a] == 1.0;
  }

  lemma OneHotIsDist(n: nat, a: nat)
    requires a < n
    ensures IsDist(OneHot(n, a))
  {
    SumSingle((i: nat) => At(OneHot(n, a), i), a, n);
  }

  function Sample(s: Sampler, rng: Rng, logits: Logits, recent: seq<Token>): (Token, Rng) {
    var p := s.dist(logits, recent);
    if s.greedy then (Argmax(p), rng) else s.draw(rng, p)
  }

  /** A greedy sampler's distribution is one-hot at some token, and drawing from a one-hot vector yields its token. */
  ghost predicate ValidSampler(s: Sampler) {
    && (forall l: Logits, h: seq<Token> :: |l| > 0 ==> |s.dist(l, h)| == |l| && IsDist(s.dist(l, h)))
    && (s.greedy ==> forall l: Logits, h: seq<Token> :: |l| > 0 ==> s.dist(l, h) == OneHot(|l|, Argmax(s.dist(l, h))))
    && (forall rng: Rng, p: seq<real> :: IsDist(p) ==> s.draw(rng, p).0 < |p|)
    && (forall rng: Rng, n: nat, a: nat :: a < n ==> s.draw(rng, OneHot(n, a)).0 == a)
  }

  datatype Request = Request(net: Network, sampler: Sampler, maxTokens: int, keepGoing: seq<Token> -> bool)

  function Next(g: Request, rng: Rng, text: seq<Token>): (Token, Rng) {
    Sample(g.sampler, rng, g.net.logits(text), text)
  }

  /** Everything the classic engine loop hands to the callback, `out` being what it has handed over already. */
  function ClassicFrom(g: Request, prompt: seq<Token>, out: seq<Token>, rng: Rng): seq<Token>
    decreases g.maxTokens - |out|
  {
    if |out| >= g.maxTokens then out
    else
      var (t, rng') := Next(g, rng, prompt + out);
      if g.net.eog(t) then out
      else if !g.keepGoing(out + [t]) then out + [t]
      else if |prompt| + |out| + 1 >= g.net.nCtx then out + [t]
      else if |out| + 1 >= g.maxTokens then out + [t]
      else ClassicFrom(g, prompt, out + [t], rng')
  }

  /** Token `i` of `r` is the one sampled there, it does not end generation, and if another follows it neither did the
      callback, the context or the budget. */
  predicate SampledAt(g: Request, prompt: seq<Token>, r: seq<Token>, i: nat, rng: Rng, rng': Rng) {
    && i < |r| && Next(g, rng, prompt + r[..i]) == (r[i], rng') && !g.net.eog(r[i]) && i < g.maxTokens
    && (i + 1 < |r| ==> g.keepGoing(r[..i + 1]) && |prompt| + i + 1 < g.net.nCtx)
  }

  /** The tokens of `r` past the first `n` were sampled one after another, with these random states in between. */
  ghost predicate Sampled(g: Request, prompt: seq<Token>, r: seq<Token>, n: nat, rngs: seq<Rng>) {
    && n <= |r| && |rngs| == |r| - n + 1
    && forall k | 0 <= k < |rngs| - 1 :: SampledAt(g, prompt, r, n + k, rngs[k], rngs[k + 1])
  }

  /** The classic loop delivers the tokens sampled one after another, and ends when the budget or the context is used
      up, when the callback declines after a token, or when the next token ends generation, and not before. */
  lemma {:induction false} ClassicTrace(g: Request, prompt: seq<Token>, out: seq<Token>, rng: Rng)
    returns (rngs: seq<Rng>)
    ensures var r := ClassicFrom(g, prompt, out, rng);
            && out <= r && |rngs| == |r| - |out| + 1 && rngs[0] == rng && Sampled(g, prompt, r, |out|, rngs)
            && (|| |r| >= g.maxTokens
                || (|r| > |out| && (!g.keepGoing(r) || |prompt| + |r| >= g.net.nCtx))
                || g.net.eog(Next(g, rngs[|r| - |out|], prompt + r).0))
    decreases g.maxTokens - |out|
  {
    hide Sampled, Next;
    rngs := [rng];
    SampledNone(g, prompt, out, rng);
    if |out| < g.maxTokens {
      var (t, rng') := Next(g, rng, prompt + out);
      if !g.net.eog(t) {
        var next, more := out + [t], [rng'];
        if g.keepGoing(next) && |prompt| + |out| + 1 < g.net.nCtx && |out| + 1 < g.maxTokens {
          more := ClassicTrace(g, prompt, next, rng');
        } else {
          SampledNone(g, prompt, next, rng');
        }
        rngs := [rng] + more;
        FirstOf(next, ClassicFrom(g, prompt, out, rng), t);
        SampledStep(g, prompt, ClassicFrom(g, prompt, out, rng), |out|, rngs);
      }
    }
  }

  lemma FirstOf(next: seq<Token>, r: seq<Token>, t: Token)
    requires next <= r && next != [] && next[|next| - 1] == t
    ensures r[..|next|] == next && r[..|next| - 1] == next[..|next| - 1] && r[|next| - 1] == t
  {
  }

  lemma SampledNone(g: Request, prompt: seq<Token>, r: seq<Token>, rng: Rng)
    ensures Sampled(g, prompt, r, |r|, [rng])
  {
  }

  lemma SampledStep(g: Request, prompt: seq<Token>, r: seq<Token>, n: nat, rngs: seq<Rng>)
    requires |rngs| > 1 && Sampled(g, prompt, r, n + 1, rngs[1..]) && SampledAt(g, prompt, r, n, rngs[0], rngs[1])
    ensures Sampled(g, prompt, r, n, rngs)
  {
    hide SampledAt;
    var more := rngs[1..];
    forall k | 0 <= k < |rngs| - 1 ensures SampledAt(g, prompt, r, n + k, rngs[k], rngs[k + 1]) {
      if k > 0 {
        assert rngs[k] == more[k - 1] && rngs[k + 1] == more[k];
        assert SampledAt(g, prompt, r, n + 1 + (k - 1), more[k - 1], more[k]);
        assert n + 1 + (k - 1) == n + k;
      }
    }
  }

  /** Everything the decoder's plain branch hands to the callback. */
  function PlainFrom(g: Request, prompt: seq<Token>, out: seq<Token>, rng: Rng): seq<Token>
    decreases g.maxTokens - |out|
  {
    if |out| >= g.maxTokens || |prompt| + |out| >= g.net.nCtx then out
    else
      var (t, rng') := Next(g, rng, prompt + out);
      if g.net.eog(t) then out
      else if !g.keepGoing(out + [t]) then out + [t]
      else PlainFrom(g, prompt, out + [t], rng')
  }

  /** Everything the scheduler hands to the callback of a request that runs without a fault: the budget is
      looked at only after a token was delivered. */
  function ServedFrom(g: Request, prompt: seq<Token>, out: seq<Token>, rng: Rng): seq<Token>
    decreases g.maxTokens - |out|
  {
    var (t, rng') := Next(g, rng, prompt + out);
    if g.net.eog(t) then out
    else if !g.keepGoing(out + [t]) || |out| + 1 >= g.maxTokens || |prompt| + |out| + 1 >= g.net.nCtx then out + [t]
    else ServedFrom(g, prompt, out + [t], rng')
  }

  lemma {:induction false} ClassicIsPlain(g: Request, prompt: seq<Token>, out: seq<Token>, rng: Rng)
    requires |prompt| + |out| < g.net.nCtx
    ensures ClassicFrom(g, prompt, out, rng) == PlainFrom(g, prompt, out, rng)
    decreases g.maxTokens - |out|
  {
    if |out| < g.maxTokens {
      var (t, rng') := Next(g, rng, prompt + out);
      if |prompt| + |out| + 1 < g.net.nCtx && |out| + 1 < g.maxTokens {
        ClassicIsPlain(g, prompt, out + [t], rng');
      }
    }
  }

  lemma {:induction false} ClassicIsServed(g: Request, prompt: seq<Token>, out: seq<Token>, rng: Rng)
    requires |out| < g.maxTokens
    ensures ClassicFrom(g, prompt, out, rng) == ServedFrom(g, prompt, out, rng)
    decreases g.maxTokens - |out|
  {
    var (t, rng') := Next(g, rng, prompt + out);
    if |prompt| + |out| + 1 < g.net.nCtx && |out| + 1 < g.maxTokens {
      ClassicIsServed(g, prompt, out + [t], rng');
    }
  }

  /** The decoder's plain branch agrees with the classic loop on every prompt that leaves room in the context. A prompt
      that fills it makes them differ exactly when the classic loop has a budget and its first token does not end
      generation: the classic loop then delivers that one token, and the decoder delivers nothing. */
  lemma PlainAgreesExactly(g: Request, prompt: seq<Token>, rng: Rng)
    ensures ClassicFrom(g, prompt, [], rng) == PlainFrom(g, prompt, [], rng)
       <==> |prompt| < g.net.nCtx || g.maxTokens <= 0 || g.net.eog(Next(g, rng, prompt).0)
  {
    assert prompt + [] == prompt;
    if |prompt| < g.net.nCtx { ClassicIsPlain(g, prompt, [], rng); }
  }

  /** The scheduler's order of tests agrees with the classic loop exactly when there is a budget, or nothing
      to deliver. */
  lemma ServedAgreesExactly(g: Request, prompt: seq<Token>, rng: Rng)
    ensures ClassicFrom(g, prompt, [], rng) == ServedFrom(g, prompt, [], rng)
       <==> g.maxTokens >= 1 || g.net.eog(Next(g, rng, prompt).0)
  {
    assert prompt + [] == prompt;
    if g.maxTokens >= 1 { ClassicIsServed(g, prompt, [], rng); }
  }

  /** A request whose network has one token and a context of one. */
  function TinyRequest(budget: int): Request {
    Request(Network((kv: seq<Token>) => [0.0], 1, (t: Token) => false, 0, 1),
            Sampler(true, (l: Logits, h: seq<Token>) => OneHot(|l|, 0), (rng: Rng, p: seq<real>) => (0, rng)),
            budget, (out: seq<Token>) => true)
  }

  /** A prompt that fills the context: the classic loop delivers one token, the decoder's plain branch none. */
  lemma FullPromptDiffers()
    ensures ClassicFrom(TinyRequest(1), [0], [], 0) == [0] && PlainFrom(TinyRequest(1), [0], [], 0) == []
  {
    ArgmaxOneHot(1, 0);
    assert Next(TinyRequest(1), 0, [0] + []).0 == 0;
  }

  /** No budget: the classic loop delivers nothing, the scheduler one token. */
  lemma NoBudgetDiffers()
    ensures ClassicFrom(TinyRequest(0), [0], [], 0) == [] && ServedFrom(TinyRequest(0), [0], [], 0) == [0]
  {
    ArgmaxOneHot(1, 0);
    assert Next(TinyRequest(0), 0, [0] + []).0 == 0;
  }

  /** Greedy generation does not look at the randomness. */
  lemma {:induction false} GreedyIgnoresRng(g: Request, prompt: seq<Token>, out: seq<Token>, rng: Rng, rng': Rng)
    requires g.sampler.greedy
    ensures PlainFrom(g, prompt, out, rng) == PlainFrom(g, prompt, out, rng')
    decreases g.maxTokens - |out|
  {
    if |out| < g.maxTokens && |prompt| + |out| < g.net.nCtx {
      GreedyIgnoresRng(g, prompt, out + [Next(g, rng, prompt + out).0], rng, rng');
    }
  }
}
