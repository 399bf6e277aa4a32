/**
 The speculative decoder: draft, verify in one batched pass, roll back, emit; plain decoding when there
 is nothing to draft or speculation is off. Proposals, draft-model failures and target failures are arbitrary.
 */
module SpeculativeDecoding {
  import opened Collections
  import opened Sums
  import opened Backends
  import opened Generation
  import opened DraftPolicy
  import opened LosslessRun
  import opened Draws
  import opened SampledRun
  import opened DraftVerification
  import opened SampledDecoding

  // ---- The decoder ----

  class SpeculativeDecoder {
    const target: Backend
    const draft: Backend?
    const cfg: Config
    const modelMode: bool
    /** The proposals made without a model. */
    const lookup: Lookup
    var length: int
    var drafted: nat
    var accepted: nat
    var rejected: nat
    var active: bool

    /** Draft length within its bounds, every drafted token accounted for, and a draft model whenever one is needed. */
    ghost predicate Valid()
      reads this
    {
      && ValidConfig(cfg) && ValidNetwork(target.net)
      && cfg.minDraft <= length <= cfg.maxDraft
      && drafted == accepted + rejected
      && (draft != null ==> draft != target && ValidNetwork(draft.net))
      && (active && modelMode ==> draft != null)
    }

    function State(): Policy
      reads this
    {
      Policy(length, drafted, accepted, active)
    }

    constructor (t: Backend, d: Backend?, c: Config, startLength: int, useSpeculative: bool, model: bool,
                 proposals: Lookup)
      requires ValidConfig(c) && ValidNetwork(t.net)
      requires d != null ==> d != t && ValidNetwork(d.net)
      ensures Valid() && target == t && draft == d && cfg == c && modelMode == model && lookup == proposals
                && drafted == 0
      ensures active == (useSpeculative && (!model || d != null))
      ensures length == if startLength < c.minDraft then c.minDraft else if startLength > c.maxDraft then c.maxDraft
                        else startLength
    {
      target, draft, cfg, modelMode, lookup := t, d, c, model, proposals;
      length := if startLength < c.minDraft then c.minDraft else if startLength > c.maxDraft then c.maxDraft
          else startLength;
      drafted, accepted, rejected := 0, 0, 0;
      active := useSpeculative && (!model || d != null);
    }

    /** Every token that may be proposed is one of the target's. */
    ghost predicate Compatible() {
      if modelMode then draft != null ==> draft.net.vocab <= target.net.vocab else ValidLookup(lookup, target.net.vocab)
    }

    /** Where drafts come from. */
    function DraftSource(s: Sampler): Source {
      if !modelMode then LookupSource(target.net.vocab, lookup)
      else if draft == null then ModelSource(s, target.net, (x: seq<Token>) => false)
      else ModelSource(s, draft.net, FailsOf(draft.faults))
    }

    /** Where the draft model fails depends only on the text. */
    ghost predicate Predictable() {
      draft != null ==> draft.faults.Reaching?
    }

    /** The adaptive state once a prompt is loaded: a draft model that fails on it is not used. */
    function StartState(prompt: seq<Token>): Policy
      reads this
    {
      var broken := modelMode && draft != null && |prompt| > 1 && FailsOf(draft.faults)(prompt[..|prompt| - 1]);
      State().(active := active && !broken)
    }

    method AdaptDraftLength(acc: nat, n: nat)
      requires Valid()
      modifies this`length
      ensures Valid() && length == AdaptLength(cfg, old(length), acc, n)
      ensures n > 0 && 10 * acc >= 9 * n ==>
                length == if old(length) + 2 <= cfg.maxDraft then old(length) + 2 else cfg.maxDraft
      ensures n > 0 && 10 * acc <= 4 * n ==>
                length == if old(length) - 2 >= cfg.minDraft then old(length) - 2 else cfg.minDraft
      ensures n == 0 || 4 * n < 10 * acc < 9 * n ==> length == old(length)
    {
      if n > 0 { AdaptExactly(cfg, length, acc, n); }
      if n == 0 { return; }
      var rate := acc as real / n as real;
      if rate >= 0.9 {
        length := if length + 2 < cfg.maxDraft then length + 2 else cfg.maxDraft;
      } else if rate <= 0.4 {
        length := if length - 2 > cfg.minDraft then length - 2 else cfg.minDraft;
      }
    }

    method MaybeAutoDisable()
      requires Valid()
      modifies this`active
      ensures Valid() && active == StaysActive(cfg, old(active), accepted, drafted)
      ensures drafted > 0 ==>
                (active <==>
                  && old(active)
                  && !(drafted >= cfg.disableAfter && accepted as real < cfg.disableBelow * drafted as real))
    {
      if drafted > 0 { DisablesExactly(cfg, active, accepted, drafted); }
      if !active { return; }
      if drafted < cfg.disableAfter { return; }
      if AcceptanceRate(accepted, drafted) < cfg.disableBelow { active := false; }
    }

    /** The end of a round: adapt the draft length, then maybe give speculation up. */
    method Adapt(acc: nat, n: nat, ghost before: Policy)
      requires Valid() && n <= drafted && acc <= accepted
      requires before == Policy(length, drafted - n, accepted - acc, active)
      modifies this`length, this`active
      ensures Valid() && State() == AfterRound(cfg, before, n, acc)
    {
      AdaptDraftLength(acc, n);
      MaybeAutoDisable();
    }

    /** Every model in use holds the whole text but its newest token. */
    ghost predicate InSync(text: seq<Token>)
      reads this, target, draft
    {
      && text != [] && target.kv == text[..|text| - 1]
      && (active && modelMode && draft != null ==> draft.kv == text[..|text| - 1])
    }

    ghost function Models(): set<Backend> {
      if draft == null then {target} else {target, draft}
    }

    /** Loads the prompt, all but its last token. A broken draft model only switches speculation off. */
    method Prefill(prompt: seq<Token>) returns (ok: bool)
      requires Valid() && prompt != []
      modifies this`active, Models()
      ensures Valid() && (ok ==> InSync(prompt)) && (!old(active) ==> !active)
      ensures target.Reliable() ==> ok
      ensures target.failures == old(target.failures) + (if ok then 0 else 1)
      ensures State() == old(State()).(active := active)
      ensures ok && old(active) && !active ==> modelMode && draft.failures > old(draft.failures)
      ensures draft != null ==> draft.failures >= old(draft.failures)
      ensures ok && Predictable() ==> State() == old(StartState(prompt))
    {
      var head := prompt[..|prompt| - 1];
      ok := true;
      target.Reset();
      if |head| > 0 {
        var logits;
        ok, logits := target.DecodeAppend(head);
        if !ok { return; }
      }
      if active && modelMode {
        draft.Reset();
        if |head| > 0 {
          var drafted, logits := draft.DecodeAppend(head);
          if !drafted { active := false; }
        }
      }
    }

    /** Drafts tokens for the next round. An empty draft leaves every model in use where it was; a draft model that
        fails is not used again. */
    method Propose(g: Request, history: seq<Token>, rng: Rng, ghost w: nat -> real)
      returns (d: seq<Token>, q: seq<seq<real>>, rng': Rng)
      requires Valid() && ValidRequest(g) && g.net == target.net && active
      requires InSync(history) && |history| < g.net.nCtx && Compatible()
      modifies this`active, if draft == null then {} else {draft}
      ensures Valid() && ValidDraft(g, d, q, g.net.nCtx - |history|)
      ensures target.kv == old(target.kv) && |d| <= length
      ensures d != [] ==> active && (modelMode ==> draft.kv == history + d[..|d| - 1])
      ensures d == [] && modelMode ==> !active && draft.failures > old(draft.failures)
      ensures d != [] || !modelMode ==> draft != null ==> draft.failures == old(draft.failures)
      ensures d != [] && modelMode ==>
                |d| == (if length <= g.net.nCtx - |history| then length else g.net.nCtx - |history|)
                || d[|d| - 1] == draft.net.eos
      ensures modelMode && draft.Reliable() ==> d != []
      ensures !modelMode ==> State() == old(State()) && rng' == rng
      ensures !modelMode ==>
                && d == lookup(history, RoundLength(g, State(), history))
                && d == lookup(history, if length <= g.net.nCtx - |history| then length else g.net.nCtx - |history|)
      ensures State() == old(State()).(active := active)
      ensures d != [] ==> Weighed(DraftSource(g.sampler), history, RoundLength(g, old(State()), history), d, q)
      ensures Predictable() && DrawsBy(g.sampler, w) && (d != [] || modelMode) ==>
                var r := SourceRollout(DraftSource(g.sampler), modelMode, w, history,
                                       RoundLength(g, old(State()), history), rng);
                r.cursor == rng' && (r.failed <==> d == []) && (d != [] ==> r.draft == d)
    {
      hide Rollout, IsDist, Weighed, ValidSampler, DrawsBy, LookupSource, ModelSource;
      var room := g.net.nCtx - |history|;
      var n := if length < room then length else room;
      assert n == RoundLength(g, State(), history);
      rng' := rng;
      if modelMode {
        var ok;
        assert draft.kv + [history[|history| - 1]] == history;
        ok, d, q, rng' := GenerateDraft(draft, g, history[|history| - 1], history, n, rng, w);
        if !ok {
          active := false;
          d, q := [], [];
        }
      } else {
        d, q := LookupDraft(g, lookup, history, n);
        if d != [] {
          LookupRollout(target.net.vocab, lookup, w, history, n, [], rng);
        }
      }
    }

    /** Verifies a draft, counts it, and rolls both models back to the text and all but the newest of the
        tokens kept. */
    method VerifyAndSync(g: Request, history: seq<Token>, d: seq<Token>, q: seq<seq<real>>, u: nat -> real, k: nat)
      returns (ok: bool, batch: seq<Token>, acc: nat, k': nat)
      requires Valid() && ValidRequest(g) && g.net == target.net && Uniform(u) && active
      requires history != [] && d != [] && ValidDraft(g, d, q, g.net.nCtx - |history|)
      requires target.kv == history[..|history| - 1]
      requires modelMode ==> draft.kv == history + d[..|d| - 1]
      modifies this`drafted, this`accepted, this`rejected, Models()
      ensures Valid() && acc <= |d| && (target.Reliable() ==> ok)
      ensures target.failures == old(target.failures) + (if ok then 0 else 1)
      ensures !ok ==> drafted == old(drafted) && accepted == old(accepted)
      ensures draft != null ==> draft.failures == old(draft.failures)
      ensures ok ==> drafted == old(drafted) + |d| && accepted == old(accepted) + acc
      ensures ok ==> 0 < |batch| <= |d| && target.kv == history + batch[..|batch| - 1]
      ensures ok && modelMode ==> draft.kv == history + batch[..|batch| - 1]
      ensures ok ==> batch == Emitted(Verify(g, history, d, q, u, k))
      ensures ok ==> acc == |Verify(g, history, d, q, u, k).accepted|
      ensures ok ==> k' == Verify(g, history, d, q, u, k).cursor
    {
      hide Verify, ValidSampler, ValidNetwork, OneHotDraft, Uniform;
      var base := |history| - 1;
      var v;
      assert target.kv + [history[base]] == history;
      ok, v := VerifyBatch(target, g, history[base], d, q, history, u, k);
      batch, acc, k' := [], 0, k;
      if !ok { return; }
      VerifyShape(g, history, d, q, u, k);
      acc, k' := |v.accepted|, v.cursor;
      drafted := drafted + |d|;
      accepted := accepted + acc;
      rejected := rejected + (|d| - acc);
      batch := v.accepted;
      if v.correction.Some? {
        var keep := base + 1 + acc;
        target.TruncateTo(keep);
        if modelMode && draft != null { draft.TruncateTo(keep); }
        batch := batch + [v.correction.value];
        assert acc < |d|;
        assert v.accepted == d[..acc] == d[..|d| - 1][..acc];
        assert (history + d[..|d| - 1])[..keep] == history + v.accepted;
        assert batch[..|batch| - 1] == v.accepted;
      }
    }

    /** A speculative round: verify, roll back, emit, adapt. */
    method Round(g: Request, prompt: seq<Token>, out: seq<Token>, d: seq<Token>, q: seq<seq<real>>,
                 u: nat -> real, k: nat, ghost rng: Rng) returns (ok: bool, out': seq<Token>, stopped: bool, k': nat)
      requires Valid() && ValidRequest(g) && g.net == target.net && Uniform(u)
      requires prompt != [] && InBudget(g, prompt, out) && active
      requires d != [] && ValidDraft(g, d, q, g.net.nCtx - |prompt + out|)
      requires target.kv == (prompt + out)[..|prompt + out| - 1]
      requires modelMode ==> draft.kv == prompt + out + d[..|d| - 1]
      modifies this`length, this`drafted, this`accepted, this`rejected, this`active, Models()
      ensures Valid() && out <= out' && |out'| <= g.maxTokens && (target.Reliable() ==> ok)
      ensures target.failures == old(target.failures) + (if ok then 0 else 1)
      ensures draft != null ==> draft.failures == old(draft.failures)
      ensures !ok ==> out' == out && State() == old(State())
      ensures ok ==> Progress(out', k', stopped) == TakeTurn(g, prompt, u, Progress(out, k, false), Drafted(d, q))
      ensures ok && !stopped ==> |out| < |out'| && (InBudget(g, prompt, out') ==> InSync(prompt + out'))
      ensures ok ==> State() == Settle(cfg, old(State()), |d|, |Verify(g, prompt + out, d, q, u, k).accepted|, stopped)
      ensures ok && stopped ==> length == old(length) && active == old(active) && drafted == old(drafted) + |d|
      ensures g.sampler.greedy && ok ==>
                PlainFrom(g, prompt, out, rng) == if stopped then out' else PlainFrom(g, prompt, out', rng)
    {
      var history := prompt + out;
      out', stopped := out, false;
      var batch, acc;
      ok, batch, acc, k' := VerifyAndSync(g, history, d, q, u, k);
      if !ok { return; }
      if g.sampler.greedy { VerifyGreedy(g, history, d, q, u, k); }
      out', stopped := Emit(g, prompt, out, batch, rng);
      if stopped { return; }
      ButLast(prompt, out, batch);
      Adapt(acc, |d|, old(State()));
    }

    /** One plain step of the target. */
    method PlainStep(g: Request, prompt: seq<Token>, out: seq<Token>, rng: Rng)
      returns (ok: bool, out': seq<Token>, stopped: bool, rng': Rng)
      requires Valid() && g.net == target.net && prompt != [] && InBudget(g, prompt, out)
      requires InSync(prompt + out) && !(active && modelMode)
      modifies target
      ensures Valid() && out <= out' && |out'| <= g.maxTokens && (target.Reliable() ==> ok)
      ensures target.failures == old(target.failures) + (if ok then 0 else 1)
      ensures !ok ==> out' == out
      ensures ok && !stopped ==> |out| < |out'| && InSync(prompt + out') && rng' == Next(g, rng, prompt + out).1
      ensures ok ==> (out', stopped) == Deliver(g, prompt, out, [Next(g, rng, prompt + out).0])
      ensures ok ==> PlainFrom(g, prompt, out, rng) == if stopped then out' else PlainFrom(g, prompt, out', rng')
    {
      var history := prompt + out;
      out', stopped, rng' := out, false, rng;
      var logits;
      assert target.kv + [history[|history| - 1]] == history;
      ok, logits := target.DecodeAppend([history[|history| - 1]]);
      if !ok { return; }
      var (next, r) := Sample(g.sampler, rng, logits, history);
      if g.net.eog(next) { stopped := true; return; }
      out' := out + [next];
      if !g.keepGoing(out') { stopped := true; return; }
      assert prompt + out' == history + [next];
      rng' := r;
    }

    /** What the draft source says of a text: a model starts from any token it has, and is given up at another; a text
        without proposals keeps speculation on. */
    lemma SourceFacts(g: Request, prompt: seq<Token>, f: seq<Token> -> real, h: seq<Token>, n: nat)
      requires Valid() && Compatible() && ValidRequest(g) && g.net == target.net && h != []
      ensures var src := DraftSource(g.sampler);
              && ValidRun(RunOf(g, prompt, f), src) && ProposesAll(src, modelMode)
              && (modelMode && draft != null ==> (src.more(h, n, h) <==> h[|h| - 1] < draft.net.vocab))
              && (modelMode ==> !src.keepArmed(h))
              && (!modelMode ==> src.keepArmed(h) && (src.more(h, n, h) <==> lookup(h, n) != []))
              && (!modelMode || draft == null || draft.Reliable() ==> FailuresBlind(src, cfg))
    {
      if modelMode {
        if draft == null {
          ModelSourceFits(g, target.net, (x: seq<Token>) => false, prompt, f, cfg);
        } else {
          ModelSourceFits(g, draft.net, FailsOf(draft.faults), prompt, f, cfg);
        }
      } else {
        LookupSourceFits(g, lookup, prompt, f, cfg);
      }
    }

    /** The program whose value `GenerateStream` delivers, and the one plain decoding evaluates, read independent
        uniform draws. Unless draft failures depend on what was drafted, as they cannot without a draft model that
        fails, the two have the same mean of every quantity. Taking the quantity to be the indicator of one output,
        the decoder delivers every output with the probability that plain decoding does. */
    lemma SamplesTheTarget(g: Request, prompt: seq<Token>, f: seq<Token> -> real, z: Streams, rng: Rng)
      requires Valid() && Compatible() && ValidRequest(g) && g.net == target.net && prompt != []
      requires !g.sampler.greedy && DrawsBy(g.sampler, z.sample) && Fair(z)
      ensures var r, src := RunOf(g, prompt, f), DraftSource(g.sampler);
              var spec, plain := SpecTree(r, src, modelMode, cfg, prompt, StartState(prompt)), PlainTree(r, prompt);
              && ValidTree(spec) && Mean(spec) == SpecValue(r, src, cfg, prompt, StartState(prompt))
              && ValidTree(plain) && Mean(plain) == PlainValue(r, prompt)
              && (FailuresBlind(src, cfg) ==> Mean(spec) == Mean(plain))
              && (!modelMode || draft == null || draft.Reliable() ==> FailuresBlind(src, cfg))
              && Eval(plain, z, 0, rng) == f(PlainFrom(g, prompt, [], rng))
    {
      hide SpecTree, PlainTree, Eval, Mean, ValidTree, ValidRequest, ValidRun, FailuresBlind, ProposesAll,
           DraftSource, Compatible,
           SpecValue, PlainValue;
      SourceFacts(g, prompt, f, prompt, 0);
      DecodingIsSampling(g, prompt, f, DraftSource(g.sampler), modelMode, cfg, StartState(prompt), z, rng);
    }

    /** Streams a generation. Greedy, or with speculation off, it delivers exactly what plain decoding delivers; if
        the target fails midway, a prefix of it. Sampling or not, what it delivers is the outcome of a history of
        turns, complete when it ends of itself. Sampling, it is what the speculative program computes from the draws,
        provided the failures of the draft model, if it has one, depend on the text alone. */
    method GenerateStream(g: Request, prompt: seq<Token>, rng0: Rng, u: nat -> real, ghost w: nat -> real,
                          ghost f: seq<Token> -> real)
      returns (outcome: Outcome, out: seq<Token>, ghost turns: seq<Turn>)
      requires Valid() && Compatible() && ValidRequest(g) && g.net == target.net && Uniform(u)
      modifies this`length, this`drafted, this`accepted, this`rejected, this`active, Models()
      ensures Valid() && (!old(active) ==> !active)
      ensures outcome.Rejected? <==> prompt == [] || |prompt| > g.net.nCtx
      ensures outcome.Rejected? ==> out == []
      ensures target.Reliable() ==> !outcome.BackendFailed?
      ensures target.failures == old(target.failures) + (if outcome.BackendFailed? then 1 else 0)
      ensures |out| <= if g.maxTokens > 0 then g.maxTokens else 0
      ensures Tallied(PolicyAfter(g, prompt, u, cfg, old(State()), turns), State())
      ensures outcome.Completed? && !active && PolicyAfter(g, prompt, u, cfg, old(State()), turns).active ==>
                GivenUp(prompt + out, old(DraftFailures()))
      ensures active ==>
                forall i | 0 <= i < |turns| && turns[i].Plain? ::
                  var h := prompt + Replay(g, prompt, u, turns[..i]).out;
                  !modelMode && lookup(h, RoundLength(g, PolicyAfter(g, prompt, u, cfg, old(State()), turns[..i]),
                                                      h)) == []
      ensures History(g, prompt, u, turns) && out == Replay(g, prompt, u, turns).out
      ensures outcome.Completed? ==> Replay(g, prompt, u, turns).stopped || !InBudget(g, prompt, out)
      ensures (g.sampler.greedy || !old(active)) && outcome.Completed? ==> out == PlainFrom(g, prompt, [], rng0)
      ensures (g.sampler.greedy || !old(active)) && outcome.BackendFailed? ==> out <= PlainFrom(g, prompt, [], rng0)
      ensures !g.sampler.greedy && DrawsBy(g.sampler, w) && Fair(Streams(u, w)) && Predictable()
                && outcome.Completed? ==>
                f(out) == Eval(SpecTree(RunOf(g, prompt, f), DraftSource(g.sampler), modelMode, cfg, prompt,
                                        old(StartState(prompt))),
                               Streams(u, w), 0, rng0)
    {
      hide Replay, History, Faithful, PolicyAfter, PlainFrom, ValidSampler, ValidNetwork, Uniform, SpecTree, Eval,
           ValidRun, FailuresBlind, ProposesAll, DrawsBy, Fair, RoundLength, LookupSource, ModelSource, RunOf,
           ValidLookup;
      out, turns := [], [];
      ghost var m := CourseOf(g, prompt, f, DraftSource(g.sampler), modelMode, cfg, Streams(u, w), StartState(prompt),
                              rng0);
      ghost var b := Start(g, prompt, rng0, u, State(), active, Predictable(), m);
      FaithfulStart(b, StartState(prompt));
      if prompt == [] || |prompt| > g.net.nCtx {
        FaithfulPrefix(b, turns, out, false, StartState(prompt), 0, rng0);
        StartTallied(g, prompt, u, cfg, State());
        return Rejected, out, turns;
      }
      SourceFacts(g, prompt, f, prompt, 0);
      var ok := Prefill(prompt);
      if !ok {
        FaithfulPrefix(b, turns, out, false, old(StartState(prompt)), 0, rng0);
        StartTallied(g, prompt, u, cfg, old(State()));
        return BackendFailed, out, turns;
      }
      if !Predictable() { FaithfulGivesUp(b, turns, out, old(StartState(prompt)), State(), 0, rng0, rng0); }
      StartTallied(g, prompt, u, cfg, old(State()));
      var stopped;
      ghost var rng: Rng, k: nat;
      outcome, out, stopped, turns, rng, k := Loop(b, g, prompt, rng0, u, w);
      FaithfulPrefix(b, turns, out, stopped, State(), k, rng);
      if outcome.Completed? { FaithfulEnd(b, turns, out, stopped, State(), k, rng); }
      PlainOnlyIfIdle(b, u, w, turns);
    }

    /** The loop over turns, once the prompt is loaded. */
    method Loop(ghost b: Start, g: Request, prompt: seq<Token>, rng0: Rng, u: nat -> real, ghost w: nat -> real)
      returns (outcome: Outcome, out: seq<Token>, stopped: bool, ghost turns: seq<Turn>, ghost rngEnd: Rng,
               ghost k: nat)
      requires Valid() && Compatible() && Uniform(u) && Follows(b, u, w) && b.g == g && b.prompt == prompt != []
      requires InSync(prompt) && Faithful(b, [], [], false, State(), 0, rng0)
      modifies this`length, this`drafted, this`accepted, this`rejected, this`active, Models()
      ensures Valid() && (!old(active) ==> !active)
      ensures !outcome.Rejected? && (target.Reliable() ==> outcome.Completed?)
      ensures target.failures == old(target.failures) + (if outcome.BackendFailed? then 1 else 0)
      ensures |out| <= if g.maxTokens > 0 then g.maxTokens else 0
      ensures Faithful(b, turns, out, stopped, State(), k, rngEnd)
      ensures outcome.Completed? ==> stopped || !InBudget(g, prompt, out)
      ensures DraftFailures() >= old(DraftFailures())
      ensures !active && PolicyAfter(g, prompt, u, cfg, b.s0, turns).active ==>
                old(!active && PolicyAfter(g, prompt, u, cfg, b.s0, []).active)
                    || GivenUp(prompt + out, old(DraftFailures()))
    {
      hide Faithful, PolicyAfter, Follows, Compatible, ValidConfig, ValidNetwork, Uniform, RoundLength;
      out, turns := [], [];
      var rng, cursor, lookupSkip := rng0, 0, false;
      stopped := false;
      assert prompt + [] == prompt;
      while InBudget(g, prompt, out)
        invariant Valid() && (!old(active) ==> !active) && !stopped
        invariant |out| <= if g.maxTokens > 0 then g.maxTokens else 0
        invariant InBudget(g, prompt, out) ==> InSync(prompt + out)
        invariant lookupSkip ==> NothingProposed(g, prompt + out)
        invariant target.failures == old(target.failures) && DraftFailures() >= old(DraftFailures())
        invariant !active && PolicyAfter(g, prompt, u, cfg, b.s0, turns).active ==>
                    old(!active && PolicyAfter(g, prompt, u, cfg, b.s0, []).active)
                        || GivenUp(prompt + out, old(DraftFailures()))
        invariant Faithful(b, turns, out, false, State(), cursor, rng)
        decreases g.maxTokens - |out|, active, !lookupSkip
      {
        var ok;
        ghost var outBefore := out;
        ok, out, stopped, rng, cursor, lookupSkip, turns :=
          Advance(b, g, prompt, out, rng, u, cursor, lookupSkip, w, turns);
        assert forall t | t in prompt + outBefore :: t in prompt + out;
        if !ok { return BackendFailed, out, false, turns, rng, cursor; }
        if stopped { return Completed, out, true, turns, rng, cursor; }
      }
      return Completed, out, false, turns, rng, cursor;
    }

    /** The lookup has no proposal for a text. */
    ghost predicate NothingProposed(g: Request, text: seq<Token>)
      reads this
    {
      !modelMode && lookup(text, RoundLength(g, State(), text)) == []
    }

    /** Why speculation may be off although the acceptance rates speak for it: the draft model failed, or does not
        know a token. */
    ghost predicate GivenUp(text: seq<Token>, failuresBefore: nat)
      reads draft
    {
      modelMode && draft != null && (draft.failures > failuresBefore || exists t | t in text :: t >= draft.net.vocab)
    }

    ghost function DraftFailures(): nat
      reads draft
    {
      if draft == null then 0 else draft.failures
    }

    /** The generation is one of this decoder's. */
    ghost predicate Follows(b: Start, u: nat -> real, w: nat -> real) {
      && Matches(b) && b.u == u && b.m.z == Streams(u, w) && b.g.net == target.net && ValidRequest(b.g)
      && b.m.src == DraftSource(b.g.sampler) && b.m.drawn == modelMode && b.m.c == cfg && b.predictable == Predictable()
    }

    lemma PlainOnlyIfIdle(b: Start, u: nat -> real, w: nat -> real, turns: seq<Turn>)
      requires Valid() && Compatible() && Follows(b, u, w) && b.prompt != [] && Busy(b, turns, State())
      ensures active ==>
                forall i | 0 <= i < |turns| && turns[i].Plain? ::
                  var h := b.prompt + Replay(b.g, b.prompt, u, turns[..i]).out;
                  !modelMode && lookup(h, RoundLength(b.g, PolicyAfter(b.g, b.prompt, u, cfg, b.s0, turns[..i]),
                                                      h)) == []
    {
      hide Replay, PolicyAfter, RoundLength, LookupSource, ModelSource, ValidRequest, ValidLookup, RunOf, ValidRun;
      if active {
        forall i | 0 <= i < |turns| && turns[i].Plain?
          ensures var h := b.prompt + Replay(b.g, b.prompt, u, turns[..i]).out;
                  !modelMode && lookup(h, RoundLength(b.g, PolicyAfter(b.g, b.prompt, u, cfg, b.s0, turns[..i]),
                                                      h)) == []
        {
          assert Idle(b, turns[..i]);
          var h := b.prompt + Replay(b.g, b.prompt, u, turns[..i]).out;
          SourceFacts(b.g, b.prompt, b.m.f, h,
                      RoundLength(b.g, PolicyAfter(b.g, b.prompt, u, cfg, b.s0, turns[..i]), h));
        }
      }
    }

    /** One pass through the loop: a round, a plain step, or giving up on drafting, for this text or for good. */
    method Advance(ghost b: Start, g: Request, prompt: seq<Token>, out: seq<Token>, rng: Rng, u: nat -> real, k: nat,
                   lookupSkip: bool, ghost w: nat -> real, ghost turns: seq<Turn>)
      returns (ok: bool, out': seq<Token>, stopped: bool, rng': Rng, k': nat, lookupSkip': bool,
               ghost turns': seq<Turn>)
      requires Valid() && Compatible() && Uniform(u) && Follows(b, u, w) && b.g == g && b.prompt == prompt != []
      requires InBudget(g, prompt, out) && InSync(prompt + out) && (lookupSkip ==> NothingProposed(g, prompt + out))
      requires Faithful(b, turns, out, false, State(), k, rng)
      modifies this`length, this`drafted, this`accepted, this`rejected, this`active, Models()
      ensures Valid() && (!old(active) ==> !active) && |out'| <= g.maxTokens && (target.Reliable() ==> ok)
      ensures target.failures == old(target.failures) + (if ok then 0 else 1)
      ensures Faithful(b, turns', out', ok && stopped, State(), k', rng')
      ensures out <= out' && DraftFailures() >= old(DraftFailures())
      ensures !active && PolicyAfter(g, prompt, u, cfg, b.s0, turns').active ==>
                old(!active && PolicyAfter(g, prompt, u, cfg, b.s0, turns).active)
                    || GivenUp(prompt + out, old(DraftFailures()))
      ensures ok && !stopped && InBudget(g, prompt, out') ==> InSync(prompt + out')
      ensures ok && lookupSkip' ==> !stopped && NothingProposed(g, prompt + out')
      ensures ok && !stopped ==> || |out| < |out'|
                                 || (out' == out && old(active) && !active)
                                 || (out' == out && active == old(active) && lookupSkip' && !lookupSkip)
    {
      hide Faithful, AfterRound, Settle, Next, Verify, Uniform, Weighed, SourceRollout, RoundLength, LookupSource,
           ModelSource, ValidRequest,
           TakeTurn, Deliver, ValidDraft, ValidConfig, DrawsBy, PlainFrom, ValidLookup;
      var history := prompt + out;
      ok, out', stopped, rng', k', lookupSkip', turns' := true, out, false, rng, k, false, turns;
      SourceFacts(g, prompt, b.m.f, history, RoundLength(g, State(), history));
      if active && modelMode && history[|history| - 1] >= draft.net.vocab {
        FaithfulDisarmed(b, turns, out, State(), k, rng);
        active := false;
        assert history[|history| - 1] in prompt + out;
      }
      ghost var s := State();
      if active && !lookupSkip {
        var d, q;
        d, q, rng' := Propose(g, history, rng, w);
        if d == [] {
          if modelMode {
            SamplingDraws(b.m);
            FaithfulGivesUp(b, turns, out, s, s.(active := false), k, rng, rng');
            active := false;
          } else {
            lookupSkip' := true;
          }
          return;
        }
        ok, out', stopped, k' := Round(g, prompt, out, d, q, u, k, b.rng0);
        if !ok {
          rng', k' := rng, k;
          return;
        }
        SamplingDraws(b.m);
        FaithfulDrafted(b, turns, out, s, d, q, k, rng, out', stopped, k', rng');
        turns' := turns + [Drafted(d, q)];
      } else {
        ok, out', stopped, rng' := PlainStep(g, prompt, out, rng);
        if !ok {
          rng' := rng;
          return;
        }
        FaithfulPlain(b, turns, out, s, k, rng, out', stopped, rng');
        turns' := turns + [Plain(rng)];
      }
    }
  }

  // ---- What a generation keeps ----

  /** A generation: what was asked for, whether speculation was on, and whether draft failures depend on the
      text alone. */
  datatype Start = Start(g: Request, prompt: seq<Token>, rng0: Rng, u: nat -> real, s0: Policy, on: bool,
                         predictable: bool, m: Course)

  /** The adaptive state after a history of turns, unless a draft model was given up on the way. */
  function PolicyAfter(g: Request, prompt: seq<Token>, u: nat -> real, c: Config, s0: Policy,
                       turns: seq<Turn>): Policy {
    if turns == [] then s0
    else
      var init, turn := turns[..|turns| - 1], turns[|turns| - 1];
      var s, p := PolicyAfter(g, prompt, u, c, s0, init), Replay(g, prompt, u, init);
      if turn.Plain? || |turn.draft| != |turn.weights| then s
      else
        var v := Verify(g, prompt + p.out, turn.draft, turn.weights, u, p.cursor);
        Settle(c, s, |turn.draft|, |v.accepted|, Replay(g, prompt, u, turns).stopped)
  }

  /** The decoder's state is the one its turns explain; only its switch may be off already. */
  predicate Tallied(e: Policy, s: Policy) {
    s.length == e.length && s.drafted == e.drafted && s.accepted == e.accepted && (s.active ==> e.active)
  }

  function TokensDrafted(turns: seq<Turn>): nat {
    if turns == [] then 0
    else
      var turn := turns[|turns| - 1];
      TokensDrafted(turns[..|turns| - 1])
      + if turn.Drafted? && |turn.draft| == |turn.weights| then |turn.draft| else 0
  }

  /** Every drafted token is counted, accepted or not, whether or not its round ended the generation. */
  lemma {:induction false} TurnsCounted(g: Request, prompt: seq<Token>, u: nat -> real, c: Config, s0: Policy,
                                        turns: seq<Turn>)
    ensures PolicyAfter(g, prompt, u, c, s0, turns).drafted == s0.drafted + TokensDrafted(turns)
  {
    if turns != [] { TurnsCounted(g, prompt, u, c, s0, turns[..|turns| - 1]); }
  }

  lemma StartTallied(g: Request, prompt: seq<Token>, u: nat -> real, c: Config, s0: Policy)
    ensures PolicyAfter(g, prompt, u, c, s0, []) == s0 && Tallied(s0, s0)
  {
  }

  lemma PolicyNext(g: Request, prompt: seq<Token>, u: nat -> real, c: Config, s0: Policy, turns: seq<Turn>, turn: Turn)
    ensures var s, p := PolicyAfter(g, prompt, u, c, s0, turns), Replay(g, prompt, u, turns);
            PolicyAfter(g, prompt, u, c, s0, turns + [turn])
              == if turn.Plain? || |turn.draft| != |turn.weights| then s
                 else Settle(c, s, |turn.draft|,
                             |Verify(g, prompt + p.out, turn.draft, turn.weights, u, p.cursor).accepted|,
                             Replay(g, prompt, u, turns + [turn]).stopped)
  {
    hide Settle, Verify, Replay;
    assert (turns + [turn])[..|turns|] == turns;
  }

  /** So far, the turns taken explain what was delivered; plain decoding would go on from there to its own result,
      greedily or with speculation off; and sampling, the program does. */
  ghost predicate Faithful(b: Start, turns: seq<Turn>, out: seq<Token>, stopped: bool, s: Policy, k: nat, rng: Rng) {
    && History(b.g, b.prompt, b.u, turns) && Replay(b.g, b.prompt, b.u, turns) == Progress(out, k, stopped)
    && (b.g.sampler.greedy ==> AsPlain(b, out, stopped, b.rng0))
    && (!b.on ==> !s.active && AsPlain(b, out, stopped, rng))
    && (b.predictable && Sampling(b.m) ==> OnCourse(b.m, out, stopped, s, k, rng))
    && Tallied(PolicyAfter(b.g, b.prompt, b.u, b.m.c, b.s0, turns), s) && Busy(b, turns, s)
  }

  /** Turns already taken left nothing to draft. */
  ghost predicate Idle(b: Start, turns: seq<Turn>) {
    var h := b.prompt + Replay(b.g, b.prompt, b.u, turns).out;
    var n := RoundLength(b.g, PolicyAfter(b.g, b.prompt, b.u, b.m.c, b.s0, turns), h);
    b.m.src.keepArmed(h) && !b.m.src.more(h, n, h)
  }

  /** With speculation on, a plain step was taken only where there was nothing to draft. */
  ghost predicate Busy(b: Start, turns: seq<Turn>, s: Policy) {
    s.active ==> forall i | 0 <= i < |turns| && turns[i].Plain? :: Idle(b, turns[..i])
  }

  lemma BusyNext(b: Start, turns: seq<Turn>, turn: Turn, s: Policy, s': Policy)
    requires Busy(b, turns, s) && (s'.active ==> s.active) && (s.active && turn.Plain? ==> Idle(b, turns))
    ensures Busy(b, turns + [turn], s')
  {
    hide Idle;
    var all := turns + [turn];
    if s'.active {
      forall i | 0 <= i < |all| && all[i].Plain? ensures Idle(b, all[..i]) {
        assert all[..i] == turns[..i];
        assert i == |turns| ==> turns[..i] == turns;
      }
    }
  }

  lemma SameRoundLength(g: Request, s: Policy, s': Policy, h: Text)
    requires s.length == s'.length
    ensures RoundLength(g, s, h) == RoundLength(g, s', h)
  {
  }

  lemma SettleSwitch(c: Config, e: Policy, s: Policy, n: nat, acc: nat, stopped: bool)
    requires Tallied(e, s) && s.active
    ensures Settle(c, e, n, acc, stopped).active <==> Settle(c, s, n, acc, stopped).active
  {
    hide AdaptLength, AcceptanceRate;
  }

  ghost predicate AsPlain(b: Start, out: seq<Token>, stopped: bool, rng: Rng) {
    PlainFrom(b.g, b.prompt, [], b.rng0) == if stopped then out else PlainFrom(b.g, b.prompt, out, rng)
  }

  /** The course is that of the generation. */
  ghost predicate Matches(b: Start) {
    b.m.g == b.g && b.m.prompt == b.prompt && b.m.z.accept == b.u
  }

  lemma SamplingDraws(m: Course)
    ensures Sampling(m) ==> DrawsBy(m.g.sampler, m.z.sample)
  {
  }

  lemma FaithfulStart(b: Start, s: Policy)
    requires Matches(b) && (!b.on ==> !s.active) && Tallied(b.s0, s)
    requires b.m == CourseOf(b.g, b.prompt, b.m.f, b.m.src, b.m.drawn, b.m.c, b.m.z, s, b.rng0)
    ensures Faithful(b, [], [], false, s, 0, b.rng0)
  {
    hide SpecTree, Eval, Sampling, OnCourse, PlainFrom;
    NoTurns(b.g, b.prompt, b.u);
    CourseStarts(b.g, b.prompt, b.m.f, b.m.src, b.m.drawn, b.m.c, b.m.z, s, b.rng0);
  }

  lemma FaithfulPrefix(b: Start, turns: seq<Turn>, out: seq<Token>, stopped: bool, s: Policy, k: nat, rng: Rng)
    requires Faithful(b, turns, out, stopped, s, k, rng)
    ensures History(b.g, b.prompt, b.u, turns) && out == Replay(b.g, b.prompt, b.u, turns).out
    ensures b.g.sampler.greedy || !b.on ==> out <= PlainFrom(b.g, b.prompt, [], b.rng0)
    ensures Tallied(PolicyAfter(b.g, b.prompt, b.u, b.m.c, b.s0, turns), s) && Busy(b, turns, s)
  {
    hide History, Replay, Sampling, OnCourse, PlainFrom;
    PlainExtends(b.g, b.prompt, out, b.rng0);
    PlainExtends(b.g, b.prompt, out, rng);
  }

  lemma FaithfulEnd(b: Start, turns: seq<Turn>, out: seq<Token>, stopped: bool, s: Policy, k: nat, rng: Rng)
    requires Faithful(b, turns, out, stopped, s, k, rng) && Matches(b) && (stopped || !InBudget(b.g, b.prompt, out))
    ensures History(b.g, b.prompt, b.u, turns) && Replay(b.g, b.prompt, b.u, turns) == Progress(out, k, stopped)
    ensures b.g.sampler.greedy || !b.on ==> out == PlainFrom(b.g, b.prompt, [], b.rng0)
    ensures b.predictable && Sampling(b.m) ==> b.m.f(out) == b.m.value
    ensures Tallied(PolicyAfter(b.g, b.prompt, b.u, b.m.c, b.s0, turns), s) && Busy(b, turns, s)
  {
    hide History, Replay, Sampling, PlainFrom, SpecTree, Eval;
    PlainDone(b.g, b.prompt, out, b.rng0);
    PlainDone(b.g, b.prompt, out, rng);
  }

  /** A draft model that failed: the program knew, or nothing is claimed of it. */
  lemma FaithfulGivesUp(b: Start, turns: seq<Turn>, out: seq<Token>, s: Policy, s': Policy, k: nat, rng: Rng, rng': Rng)
    requires Faithful(b, turns, out, false, s, k, rng) && (rng' == rng || s.active) && (s'.active ==> s.active)
    requires s' == s.(active := s'.active)
    requires b.predictable ==> Matches(b) && InBudget(b.g, b.prompt, out) && s' == s.(active := false)
    requires var h := b.prompt + out;
             var n := RoundLength(b.g, s, h);
             b.predictable && Sampling(b.m) ==>
               && s.active && b.m.src.more(h, n, h)
               && SourceRollout(b.m.src, b.m.drawn, b.m.z.sample, h, n, rng).failed
               && SourceRollout(b.m.src, b.m.drawn, b.m.z.sample, h, n, rng).cursor == rng'
    ensures Faithful(b, turns, out, false, s', k, rng')
  {
    hide History, Replay, Sampling, OnCourse, PlainFrom, SourceRollout, RoundLength;
    if b.predictable && Sampling(b.m) { CourseAborted(b.m, out, s, k, rng); }
  }

  lemma FaithfulDisarmed(b: Start, turns: seq<Turn>, out: seq<Token>, s: Policy, k: nat, rng: Rng)
    requires Faithful(b, turns, out, false, s, k, rng) && Matches(b) && InBudget(b.g, b.prompt, out)
    requires var h := b.prompt + out; s.active && !b.m.src.keepArmed(h) && !b.m.src.more(h, RoundLength(b.g, s, h), h)
    ensures Faithful(b, turns, out, false, s.(active := false), k, rng)
  {
    hide History, Replay, OnCourse, PlainFrom, Sampling;
    if b.predictable && Sampling(b.m) { CourseDisarmed(b.m, out, s, k, rng); }
  }

  lemma FaithfulDrafted(b: Start, turns: seq<Turn>, out: seq<Token>, s: Policy, d: seq<Token>, q: seq<seq<real>>,
                        k: nat, rng: Rng, out': seq<Token>, stopped: bool, k': nat, rng': Rng)
    requires Faithful(b, turns, out, false, s, k, rng) && Matches(b) && InBudget(b.g, b.prompt, out)
    requires s.active && d != [] && ValidDraft(b.g, d, q, b.g.net.nCtx - |b.prompt + out|)
    requires Progress(out', k', stopped) == TakeTurn(b.g, b.prompt, b.u, Progress(out, k, false), Drafted(d, q))
    requires b.g.sampler.greedy ==>
               PlainFrom(b.g, b.prompt, out, b.rng0) == if stopped then out' else PlainFrom(b.g, b.prompt, out', b.rng0)
    requires var h := b.prompt + out;
             var n := RoundLength(b.g, s, h);
             b.predictable && Sampling(b.m) ==>
               && b.m.src.more(h, n, h) && Weighed(b.m.src, h, n, d, q)
               && SourceRollout(b.m.src, b.m.drawn, b.m.z.sample, h, n, rng) == Rolled(d, rng', false)
    ensures |q| == |d| && Faithful(b, turns + [Drafted(d, q)], out', stopped,
                                   Settle(b.m.c, s, |d|, |Verify(b.g, b.prompt + out, d, q, b.u, k).accepted|, stopped),
                                   k', rng')
    ensures var turns' := turns + [Drafted(d, q)];
            PolicyAfter(b.g, b.prompt, b.u, b.m.c, b.s0, turns').active <==>
            Settle(b.m.c, s, |d|, |Verify(b.g, b.prompt + out, d, q, b.u, k).accepted|, stopped).active
  {
    hide History, Replay, OnCourse, PlainFrom, Sampling, TakeTurn, Weighed, SourceRollout, AfterRound, Verify,
         RoundLength, InBudget;
    NextDrafted(b.g, b.prompt, b.u, turns, out, k, d, q);
    PolicyNext(b.g, b.prompt, b.u, b.m.c, b.s0, turns, Drafted(d, q));
    SettleTallied(b.m.c, PolicyAfter(b.g, b.prompt, b.u, b.m.c, b.s0, turns), s, |d|,
                  |Verify(b.g, b.prompt + out, d, q, b.u, k).accepted|, stopped);
    SettleSwitch(b.m.c, PolicyAfter(b.g, b.prompt, b.u, b.m.c, b.s0, turns), s, |d|,
                 |Verify(b.g, b.prompt + out, d, q, b.u, k).accepted|, stopped);
    BusyNext(b, turns, Drafted(d, q), s,
             Settle(b.m.c, s, |d|, |Verify(b.g, b.prompt + out, d, q, b.u, k).accepted|, stopped));
    if b.predictable && Sampling(b.m) {
      CourseDrafted(b.m, out, s, d, q, k, rng, rng');
      if stopped {
        var n := |Verify(b.g, b.prompt + out, d, q, b.u, k).accepted|;
        StoppedAnyhow(b.m, out', AfterRound(b.m.c, s, |d|, n), Settle(b.m.c, s, |d|, n, stopped), k', rng');
      }
    }
  }

  lemma SettleTallied(c: Config, e: Policy, s: Policy, n: nat, acc: nat, stopped: bool)
    requires Tallied(e, s)
    ensures Tallied(Settle(c, e, n, acc, stopped), Settle(c, s, n, acc, stopped))
    ensures Settle(c, s, n, acc, stopped).active ==> s.active
  {
    hide AdaptLength;
  }

  lemma StoppedAnyhow(m: Course, out: seq<Token>, s: Policy, s': Policy, k: nat, j: nat)
    requires OnCourse(m, out, true, s, k, j)
    ensures OnCourse(m, out, true, s', k, j)
  {
  }

  lemma FaithfulPlain(b: Start, turns: seq<Turn>, out: seq<Token>, s: Policy, k: nat, rng: Rng, out': seq<Token>,
                      stopped: bool, rng': Rng)
    requires Faithful(b, turns, out, false, s, k, rng) && Matches(b) && InBudget(b.g, b.prompt, out)
    requires (out', stopped) == Deliver(b.g, b.prompt, out, [Next(b.g, rng, b.prompt + out).0])
    requires stopped || rng' == Next(b.g, rng, b.prompt + out).1
    requires PlainFrom(b.g, b.prompt, out, rng) == if stopped then out' else PlainFrom(b.g, b.prompt, out', rng')
    requires var h := b.prompt + out; s.active ==> b.m.src.keepArmed(h) && !b.m.src.more(h, RoundLength(b.g, s, h), h)
    ensures Faithful(b, turns + [Plain(rng)], out', stopped, s, k, rng')
    ensures PolicyAfter(b.g, b.prompt, b.u, b.m.c, b.s0, turns + [Plain(rng)])
              == PolicyAfter(b.g, b.prompt, b.u, b.m.c, b.s0, turns)
  {
    hide History, Replay, PlainFrom, Sampling, Deliver, Next, RoundLength, SpecTree, Eval, Done;
    NextPlain(b.g, b.prompt, b.u, turns, out, k, rng);
    PolicyNext(b.g, b.prompt, b.u, b.m.c, b.s0, turns, Plain(rng));
    SameRoundLength(b.g, s, PolicyAfter(b.g, b.prompt, b.u, b.m.c, b.s0, turns), b.prompt + out);
    BusyNext(b, turns, Plain(rng), s, s);
    if b.g.sampler.greedy {
      GreedyIgnoresRng(b.g, b.prompt, out, rng, b.rng0);
      GreedyIgnoresRng(b.g, b.prompt, out', rng', b.rng0);
    }
    if b.predictable && Sampling(b.m) {
      CoursePlain(b.m, out, s, k, rng);
      assert s.(active := s.active && b.m.src.keepArmed(b.prompt + out)) == s;
    }
  }

  /** Vocabularies may differ by padding, and by no more than 128 entries of it. */
  const PADDING := 128

  /** Builds a decoder, or refuses models that cannot share a tokenizer. */
  method Build(t: Backend, d: Backend?, c: Config, startLength: int, useSpeculative: bool, model: bool,
               proposals: Lookup)
    returns (r: Option<SpeculativeDecoder>)
    requires ValidConfig(c) && ValidNetwork(t.net) && (d != null ==> d != t && ValidNetwork(d.net))
    ensures r.None? <==> d != null && (d.net.vocab > t.net.vocab + 128 || t.net.vocab > d.net.vocab + 128)
    ensures r.Some? ==> fresh(r.value) && r.value.Valid() && r.value.target == t && r.value.draft == d
    ensures r.Some? ==> r.value.active == (useSpeculative && (!model || d != null))
  {
    if d != null {
      var diff: int := d.net.vocab - t.net.vocab;
      if (if diff < 0 then -diff else diff) > PADDING { return None; }
    }
    var decoder := new SpeculativeDecoder(t, d, c, startLength, useSpeculative, model, proposals);
    r := Some(decoder);
  }

  lemma ButLast(a: seq<Token>, b: seq<Token>, c: seq<Token>)
    requires c != []
    ensures a + (b + c) == (a + b) + c
    ensures (a + (b + c))[..|a + (b + c)| - 1] == (a + b) + c[..|c| - 1]
  {
  }

  lemma PlainDone(g: Request, prompt: seq<Token>, out: seq<Token>, rng: Rng)
    ensures !InBudget(g, prompt, out) ==> PlainFrom(g, prompt, out, rng) == out
  {
  }

  lemma {:induction false} PlainExtends(g: Request, prompt: seq<Token>, out: seq<Token>, rng: Rng)
    ensures out <= PlainFrom(g, prompt, out, rng)
    decreases g.maxTokens - |out|
  {
    if InBudget(g, prompt, out) {
      var (t, rng') := Next(g, rng, prompt + out);
      if !g.net.eog(t) && g.keepGoing(out + [t]) { PlainExtends(g, prompt, out + [t], rng'); }
    }
  }
}
