# Reame: fast paths that agree with slow ones

Reame serves language models on CPUs. Most of its features are shortcuts around one slow loop: decode the
prompt, sample a token, hand it to the caller, decode it, repeat. This project models those shortcuts in Dafny
and proves that each agrees with what it replaces.

`Collections.dfy` holds what the modules share. Every component stands on one contract of the model runtime
(`Backend.dfy`): a network is a fixed function from token prefixes to logits, a backend is a network plus the tokens
its KV cache holds, and a forward pass may fail and leave anything behind; ghost counters record how many tokens were
decoded and how many passes failed. `Generation.dfy` defines the reference: what plain generation delivers, given the
network, the sampler, the token budget and a callback that may stop anywhere.

| file | component | main result |
|---|---|---|
| `Sums.dfy`, `Acceptance.dfy`, `LosslessRun.dfy`, `DraftFailures.dfy` | speculative sampling | every quantity computed from a finished generation has the same mean with and without speculation, exactly when draft failures do not depend on what was drafted |
| `DraftPolicy.dfy`, `DraftVerification.dfy`, `SpeculativeDecoder.dfy` | the speculative loop | greedy speculation delivers exactly the plain sequence, and both KV caches stay in step with the text |
| `Draws.dfy`, `SampledRun.dfy`, `SampledDecoding.dfy` | the loop, sampling | what the loop delivers is the value of a program over uniform draws, and that program has the mean of plain sampling for every quantity |
| `Scheduler.dfy` | interleaved requests | every request delivers a prefix of its solo run, all of it unless it failed; every step serves everyone in flight and admits the oldest who fit; nothing is lost, and the queue drains |
| `Bytes.dfy`, `DiskStore.dfy`, `CacheManager.dfy`, `PrefixCache.dfy` | prefix KV cache | the cache is invisible in the output and saves the work it reports; LRU eviction is exact and minimal, even when file names collide |
| `CorpusFile.dfy`, `CorpusIndex.dfy` | generation memory | the bounded n-gram index agrees with a naive search of the streams; the file loads back |
| `Resp.dfy` | RESP2 requests | the same commands however the bytes are cut, and the encoder and inline commands are inverted |
| `Nucleus.dfy` | sampling distribution | the softmax is the one distribution proportional to the exponentials, and the widening top-k search finds the full-sort nucleus |
| `Conclave.dfy` | early consensus | stopping early never changes the verdict |

Objects the server updates in place are classes whose `Valid` predicate is the invariant of every reachable
state; loops are loops with invariants; what they compute is a function about which the lemmas speak.

Conventions. Probabilities and logits are reals, and the exponential is any positive increasing function that turns sums
into products. Uniform draws are any numbers in [0, 1). A sampler's random state is
abstract and advances deterministically; where distributions are the subject, it is a position in a stream of draws. A
program over draws is a finite tree whose nodes each read one unread draw and take a branch picked by an interval as
long as the branch's weight, so its mean is the mean of its value under independent uniform draws. A callback is a
function of everything delivered so far. Faults of forward passes, draft models, files, snapshot restores and
callbacks may strike wherever the code handles them; a backend may instead be declared to fail exactly at certain
texts, or nowhere, and a store to be free of faults, and then the results say what fails. Preconditions are the ones
the code relies on: draft tokens below the target's vocabulary size, `1 <= min_draft_tokens <= max_draft_tokens`,
`ngram >= 1`, `max_sites_per_ngram >= 1`, lengths that fit the 32-bit fields they are written to, and cache keys that
do not collide among the texts in play.

Where the code and its comments disagree, the model follows the code:

- `include/reame/speculative/acceptance.hpp:15` says a draft probability of zero never accepts; the test accepts
  whenever the target probability is positive. Such a token is never drafted, so the law is unaffected.
- `include/reame/palimpsest/corpus_index.hpp:25-26` says the oldest half of the log is dropped; the code drops the
  fewest oldest whole streams that bring it within budget.
- `include/reame/palimpsest/corpus_index.hpp:47-48` says trivial self-matches are excluded; the code excludes none.

Properties that fail at an edge are proved with the exact condition under which they hold, beside an input at which they
fail:

- A draft model that fails midway has its partial draft thrown away and a plain step taken instead, so a failure that
  depends on what was drafted changes the law of the output. Speculation is lossless, over all targets, budgets,
  callbacks and payoffs, exactly when from every text no draft that can be drawn fails, or every one does
  (`LosslessExactly`); greedy drafts and failures before the first token are always harmless. A fair coin whose drafts
  end at one side and fail at the other comes out three to one after the prompt `[1]` (`EosBias`).
- The decoder's plain branch and the classic loop differ exactly when the prompt fills the context, there is a
  budget, and the first token does not end generation (`PlainAgreesExactly`, `FullPromptDiffers`).
- The scheduler and the classic loop differ exactly when the budget is below one token and the first token does not
  end generation (`ServedAgreesExactly`, `NoBudgetDiffers`).
- The corpus file loads back exactly when no stream is longer than 2^26 tokens (`LoadsBackExactly`, `Reopen`,
  `LongStreamLost`).
- An opened disk store accounts for all bytes on disk exactly when every file with anything in it holds a key of at most
  4096 bytes (`DiskStore.Store.Open`, `OpenOverLongKey`).
- A reopened disk store answers as before exactly when no file with a key of at most 4096 bytes survived the removal of
  its entry, which is always so unless the system refuses removals (`DiskStore.Reopen`, `RemoveAndReopen`).
- The sampler has a distribution for all logits and texts exactly when it is greedy, penalizes nothing, or has a penalty
  other than zero (`DefinedExactly`, `ZeroPenaltyDiverges`).
- The n-gram index finds the most recent continuation exactly when that place is among the newest
  `max_sites_per_ngram` with its key (`FoundExactly`, `CollisionHides`).

## Model

| member | source | states |
|---|---|---|
| `Acceptance.AcceptMeasure` | include/reame/speculative/acceptance.hpp:16-18 | the draws the accept test accepts are an initial interval of [0, 1) whose length times q is min(p, q) |
| `Acceptance.ResidualDistribution` | src/speculative/acceptance.cpp:7-19 | the in-place loops compute the normalized excess max(p - q, 0), or p itself if nothing is left, with a shorter draft vocabulary padded by zeros; the result is a distribution whenever p is |
| `Acceptance.DrawFrom` | src/speculative/batch_verifier.cpp:13-24 | the scan picks the token of the inverse CDF, which always has positive probability |
| `Acceptance.DrawInterval` | src/core/sampler.cpp:93-107 | the draws that select a token are exactly an interval whose length is that token's probability |
| `Acceptance.StepIsLossless` | src/speculative/batch_verifier.cpp:47-65 | for every value function, drafting from q, accepting or redrawing from the residual has the mean of drawing from p |
| `LosslessRun.ExtendDraft` | src/speculative/batch_verifier.cpp:47-65 | drafting one token more does not change a martingale's mean after verification |
| `LosslessRun.RoundIsLossless` | src/speculative/batch_verifier.cpp:31-70 | a round of any draft length, from any source that may stop anywhere and is sure not to be aborted, leaves the mean of every martingale of the target unchanged |
| `LosslessRun.CutValueIsMartingale` | src/speculative/speculative_decoder.cpp:242-256 | discarding everything after the first stop of an emitted batch is compatible with the target: the plain value read at the emitted part is a martingale |
| `LosslessRun.AbortedRound` | src/speculative/speculative_decoder.cpp:162-170 | a round that is sure to be aborted is worth the plain step taken instead |
| `LosslessRun.SpeculationIsLossless` | src/speculative/speculative_decoder.cpp:148-277 | over whole generations, every payoff has the same mean under the speculative loop as under plain sampling, whatever the draft source, adaptive lengths, auto-disable history, stop points and budgets, provided draft failures do not depend on what was drafted |
| `DraftFailures.LosslessExactly` | src/speculative/speculative_decoder.cpp:162-170 | speculation with a given source is lossless for every run and state if and only if, at every text, the abort of a round is certain or impossible, that is, if no draft it can draw fails or every one does |
| `DraftFailures.ChanceIsFate` | src/speculative/draft_generator.cpp:21-36 | a round's abort is impossible exactly when no draft that can be drawn meets a failing text, and certain exactly when none survives |
| `DraftFailures.FailuresBias` | src/speculative/speculative_decoder.cpp:162-170 | wherever an abort is neither certain nor impossible, some target, budget and payoff show the bias |
| `DraftFailures.EarlyFailuresAreBlind` | src/speculative/draft_generator.cpp:21-22 | a model that fails, if at all, before its first token is harmless |
| `DraftFailures.GreedyFailuresAreBlind` | src/speculative/draft_generator.cpp:21-36 | greedy drafting has one draft per text, so its failures are harmless wherever they strike |
| `DraftFailures.EosBias` | src/speculative/draft_generator.cpp:26-32 | after a prompt of one token, with a fair coin for target and draft, one side ending drafts and the other leading to a failure, that side is delivered with probability 3/4 instead of 1/2 |
| `Draws.DrawNodeValid` | src/core/sampler.cpp:93-107 | drawing from a distribution takes each branch on an interval of draws as long as its probability |
| `Draws.TestNodeValid` | src/speculative/batch_verifier.cpp:53 | an accept test takes its branches on the two intervals that its threshold makes |
| `SampledRun.VerifyTreeMean` | src/speculative/batch_verifier.cpp:47-65 | verification, as a program over draws, has the mean the one-round law speaks of |
| `SampledRun.SpecTreeMean` | src/speculative/speculative_decoder.cpp:148-277 | the speculative loop is a program over draws, every branch as likely as its weight, whose mean is the value that is proved lossless |
| `SampledRun.SameDistribution` | src/speculative/speculative_decoder.cpp:148-277 | the programs of the speculative loop and of plain sampling have the same mean of every quantity |
| `SampledDecoding.EvalVerify` | src/speculative/batch_verifier.cpp:47-65 | on every stream of draws, verification goes the way of its program, reading as many draws |
| `SampledDecoding.EvalDraft` | src/speculative/draft_generator.cpp:21-36 | rolling a draft out and verifying it goes the way of the round's program |
| `SampledDecoding.EvalAborted` | src/speculative/speculative_decoder.cpp:162-170 | a rollout on which the model fails goes the way of the program with speculation off, its draws spent |
| `SampledDecoding.DeliverIsCut` | src/speculative/speculative_decoder.cpp:242-256 | emission delivers what the text holds up to its first stop, and goes on exactly when the text does |
| `SampledDecoding.PlainEval` | src/speculative/speculative_decoder.cpp:260-276 | plain decoding delivers the value of the plain program on every stream of draws |
| `DraftVerification.VerifyDraws` | src/speculative/batch_verifier.cpp:47-65 | verification keeps the first drafted token on a set of draws of the length the mean gives it, and otherwise replaces it on intervals of the residual's lengths |
| `DraftVerification.VerifyShape` | src/speculative/batch_verifier.cpp:47-68 | a verdict keeps a prefix of the draft and corrects exactly when it keeps less than all of it |
| `DraftVerification.GreedyAccept` | src/speculative/batch_verifier.cpp:47-65 | with one-hot distributions a drafted token is kept exactly when it is the greedy one and is otherwise replaced by it, whatever is drawn |
| `DraftVerification.VerifyGreedy` | src/speculative/batch_verifier.cpp:47-65 | greedy verification emits only tokens greedy decoding would, for every draft and every stream of draws |
| `DraftVerification.GreedySamplerIsValid` | src/core/sampler.cpp:32-39 | the server's greedy sampler meets everything the decoder proofs ask of a sampler |
| `Nucleus.SamplerIsValid` | src/core/sampler.cpp:12-107 | the server's sampler, at every temperature and top_p and however ties are broken, meets everything the decoder proofs ask of a sampler, provided it has a distribution at all |
| `Nucleus.DefinedExactly` | src/core/sampler.cpp:19-49 | it has one for all logits and texts if and only if it is greedy, has no window, or its penalty is not zero |
| `Nucleus.FiniteExactly` | src/core/sampler.cpp:19-30 | a logit goes to infinity exactly when the penalty is zero and a token with a positive logit is in the window |
| `Nucleus.ZeroPenaltyDiverges` | src/core/sampler.cpp:27-28 | a zero penalty and a positive logit of the newest token leave no distribution |
| `DraftVerification.DecideDraft` | src/speculative/batch_verifier.cpp:43-69 | the verification loop computes the verdict function from per-position logits |
| `DraftVerification.VerifyBatch` | src/speculative/batch_verifier.cpp:31-70 | one batched pass decides the whole draft as token-by-token verification would, and leaves the target holding the text and all drafted tokens but the last |
| `DraftVerification.GenerateDraft` | src/speculative/draft_generator.cpp:10-38 | the rollout yields a nonempty draft of vocabulary tokens with the distributions they were drawn from, one-hot when greedy, token by token from the sampler's draws until the end-of-sequence token, the length or a failure, and fails exactly where its model does; the draft model holds the text and all drafted tokens but the last |
| `DraftVerification.Emit` | src/speculative/speculative_decoder.cpp:242-256 | emission delivers exactly the tokens before the first that ends generation, up to a refusal or a budget; greedy, it stops where plain decoding stops and otherwise leaves plain decoding with the same remainder |
| `DraftPolicy.AfterRoundValid` | src/speculative/speculative_decoder.cpp:282-300 | every round keeps the draft length within its bounds and never switches speculation back on |
| `DraftPolicy.AdaptExactly` | src/speculative/speculative_decoder.cpp:282-293 | in whole numbers: two tokens more, up to the maximum, after a round that accepted at least nine in ten; two fewer, down to the minimum, after one that accepted at most four in ten; the same length in between |
| `DraftPolicy.AdaptMonotone` | src/speculative/speculative_decoder.cpp:282-293 | accepting more never shortens the next draft |
| `DraftPolicy.AdaptMoves` | src/speculative/speculative_decoder.cpp:287-292 | a wholly accepted round lengthens drafts below the maximum, a wholly rejected one shortens them above the minimum |
| `DraftPolicy.AdaptReaches` | src/speculative/speculative_decoder.cpp:282-293 | enough wholly accepted rounds reach the maximum, and enough wholly rejected ones the minimum |
| `DraftPolicy.DisablesExactly` | src/speculative/speculative_decoder.cpp:295-300 | speculation goes off exactly when at least `disable_after_drafted` tokens were drafted and fewer than the `disable_below_acceptance` share of them accepted |
| `DraftVerification.LookupDraft` | src/speculative/speculative_decoder.cpp:176-202 | a proposal is weighed with all the mass on each of its tokens |
| `SpeculativeDecoding.Build` | src/speculative/speculative_decoder.cpp:27-51 | a decoder is refused exactly when the two vocabularies differ by more than 128 entries |
| `SpeculativeDecoding.SpeculativeDecoder.constructor` | src/speculative/speculative_decoder.cpp:27-36 | the decoder starts valid, with the wanted draft length clamped to its bounds, and active exactly when speculation is wanted and a needed draft model exists |
| `SpeculativeDecoding.SpeculativeDecoder.AdaptDraftLength` | src/speculative/speculative_decoder.cpp:282-293 | the draft length grows by two up to its maximum, shrinks by two down to its minimum, or stays, as the exact share of accepted tokens says, and stays within its bounds |
| `SpeculativeDecoding.SpeculativeDecoder.MaybeAutoDisable` | src/speculative/speculative_decoder.cpp:295-300 | speculation goes off exactly when enough tokens were drafted over the decoder's life and too small a share of them was accepted |
| `SpeculativeDecoding.SpeculativeDecoder.Prefill` | src/speculative/speculative_decoder.cpp:109-130 | every model in use holds the prompt but its last token; a failing draft model only switches speculation off, exactly when it fails on the prompt |
| `SpeculativeDecoding.SpeculativeDecoder.Propose` | src/speculative/speculative_decoder.cpp:157-204 | drafts are as long as the adaptive length and the context allow, or end at the end-of-sequence token, and are those of the decoder's source, none exactly when its rollout fails; a model that failed is not used again, and the target is untouched |
| `SpeculativeDecoding.SpeculativeDecoder.VerifyAndSync` | src/speculative/speculative_decoder.cpp:214-240 | after verification and rollback both models hold the text and all emitted tokens but the newest, and drafted equals accepted plus rejected |
| `SpeculativeDecoding.SpeculativeDecoder.Round` | src/speculative/speculative_decoder.cpp:214-259 | a round delivers exactly what verification decided and emission lets through, on draws no other round reads, counts the tokens drafted and accepted even if emission stops, and adapts length and switch exactly when it does not; greedy leaves plain decoding's result unchanged |
| `SpeculativeDecoding.SpeculativeDecoder.PlainStep` | src/speculative/speculative_decoder.cpp:260-276 | a plain step is one step of the reference and keeps the models in step |
| `SpeculativeDecoding.SpeculativeDecoder.Advance` | src/speculative/speculative_decoder.cpp:148-277 | one pass through the loop keeps the models in step, the history of turns, the plain result still to come, and the value of the sampling program, and makes progress on every `continue` |
| `SpeculativeDecoding.SpeculativeDecoder.GenerateStream` | src/speculative/speculative_decoder.cpp:67-280 | greedy, or with speculation off, it delivers exactly the plain sequence, a prefix of it if the target fails; sampling, it delivers the value of the speculative program on its draws, aborted rounds included, if draft failures depend on the text alone; it terminates on every path, rejects exactly empty and oversized prompts, fails exactly if the target does, and never switches speculation on; the decoder it leaves behind has the counters, the length and the switch that the history of rounds gives, and while speculation is on a plain step is taken only where there is nothing to draft |
| `SpeculativeDecoding.SpeculativeDecoder.Loop` | src/speculative/speculative_decoder.cpp:148-277 | the loop itself: it ends at the budget, the context or a stop, a failure of the target is counted and reported, and speculation goes off against the acceptance rate only when the draft model failed or does not know a token of the text |
| `SpeculativeDecoding.TurnsCounted` | src/speculative/speculative_decoder.cpp:220-223 | over a whole history of turns, the drafted counter grows by exactly the lengths of the drafts that were verified |
| `SpeculativeDecoding.SpeculativeDecoder.SamplesTheTarget` | src/speculative/speculative_decoder.cpp:67-280 | that program has the mean the speculative loop is proved to have and, unless draft failures depend on what was drafted, that of the program plain decoding evaluates, for every quantity: the decoder delivers every output with the probability plain decoding does |
| `Generation.PlainAgreesExactly` | src/core/engine.cpp:441-453 | the decoder's plain branch agrees with the classic loop if and only if the prompt leaves room, or there is no budget, or the first token ends generation |
| `Generation.ServedAgreesExactly` | src/core/scheduler.cpp:163-179 | the scheduler's order of tests agrees with the classic loop if and only if there is a budget or the first token ends generation |
| `Generation.FullPromptDiffers` | src/core/engine.cpp:441-453 | a prompt that fills the context: the classic loop delivers one token, the decoder's plain branch none |
| `Generation.NoBudgetDiffers` | src/core/scheduler.cpp:163-179 | no budget: the classic loop delivers nothing, the scheduler one token |
| `Generation.ClassicTrace` | src/core/engine.cpp:441-453 | what the classic loop delivers is the sequence of tokens sampled one after another, none of them ending generation; it goes on exactly while the callback accepts and budget and context last, and ends for one of these reasons or because the next token ends generation |
| `Generation.GreedyIgnoresRng` | src/core/sampler.cpp:109-120 | greedy generation is the same for every random state |
| `Backends.Backend.DecodeBatch` | include/reame/core/llama_backend.hpp:53-58 | position i of a batched pass yields the logits after the first i + 1 batch tokens |
| `Backends.Backend.TruncateTo` | include/reame/core/llama_backend.hpp:60-63 | the sequence keeps exactly its first n positions |
| `Scheduling.MultiBackend.DecodeSeqs` | include/reame/core/llama_backend.hpp:65-73 | each slice continues its own sequence and yields its last logits; sequences not named are untouched even if the pass fails |
| `Scheduling.ServeStep` | src/core/scheduler.cpp:163-179 | the token sampled for a request is the next one of its solo run, and retiring it there is what that run does |
| `Scheduling.FreeSlot` | src/core/scheduler.cpp:101-107 | with fewer live requests than slots some slot is free |
| `Scheduling.SettledIsClassic` | src/core/engine.cpp:441-453 | a request with a budget that succeeded delivered exactly what the classic loop delivers |
| `Scheduling.FinishBooks` | src/core/scheduler.cpp:61-68 | finishing a request moves its id from live to done, once, and keeps every other request's books |
| `Scheduling.Scheduler.constructor` | src/core/scheduler.cpp:49-52 | an idle scheduler satisfies the invariant |
| `Scheduling.Scheduler.Submit` | src/core/scheduler.cpp:197-220 | a fresh id is queued, last, exactly for a nonempty prompt that fits the context; nothing else changes |
| `Scheduling.Scheduler.Finish` | src/core/scheduler.cpp:61-68 | the slot is released and emptied, and the outcome recorded |
| `Scheduling.Scheduler.FindDonor` | src/core/scheduler.cpp:72-79 | the first live request with the very same prompt, or none exists |
| `Scheduling.Scheduler.AdmitOne` | src/core/scheduler.cpp:99-115 | the oldest waiting request takes a free slot; a clone's KV is its prompt but the last token, so its first pass decodes the whole prompt |
| `Scheduling.Scheduler.AdmitNext` | src/core/scheduler.cpp:82-117 | the oldest waiting request is held back exactly when it does not fit or its donor is still prefilling; otherwise it is admitted, cloned exactly when a live request has its prompt |
| `Scheduling.Scheduler.Admit` | src/core/scheduler.cpp:82-117 | admission is in submission order, stops only for a full house or a held-back request, stays within the KV budget as it admits, and leaves something live if anything waits |
| `Scheduling.Scheduler.BuildSlices` | src/core/scheduler.cpp:126-139 | every slice starts where its sequence ends and completes the request's history, prefilled or cloned |
| `Scheduling.Scheduler.SampleOne` | src/core/scheduler.cpp:158-183 | a request advances along its solo run, settles with all of it, or fails alone through its own fault; other sequences are untouched |
| `Scheduling.Scheduler.FailAll` | src/core/scheduler.cpp:144-150 | a failed batch fails everything in flight and frees every slot |
| `Scheduling.Scheduler.Step` | src/core/scheduler.cpp:119-186 | the oldest waiting requests are admitted until none waits, the house is full, the next would exceed the context together with the live histories, or a live request with its very prompt is still prefilling; then every live request has one more token delivered or is done; the invariant holds again: slots match live requests, sequences match histories, every id is waiting, live or done, everything delivered is a prefix of a solo run; finished requests never change, only faulty ones fail, and the remaining token budget shrinks |
| `Scheduling.Scheduler.ServeLive` | src/core/scheduler.cpp:122-185 | one batched pass: every live request gets one more token or is done, and a failed pass fails them all |
| `Scheduling.ClonedExactly` | src/core/scheduler.cpp:93-114 | an admitted request is prefilled from scratch exactly when its prompt is one token long or no request before it has that prompt |
| `Scheduling.CellsOfAll` | src/core/scheduler.cpp:54-59 | the cells in use are the lengths of the live histories together |
| `Scheduling.Scheduler.RunUntilIdle` | src/core/scheduler.cpp:224-227 | it terminates with every submission done, and unless a batch failed every request without a fault delivered its whole solo run |
| `Bytes.DecodeEncode` | src/cache/cache_manager.cpp:13-35 | little-endian integers read back as written |
| `Bytes.EncodeByte` | src/cache/cache_manager.cpp:13-35 | byte i of an integer is its digit for 256 to the power i |
| `Bytes.EncodeDecode` | src/cache/cache_manager.cpp:13-35 | every byte string is the encoding of the integer it reads as |
| `DiskStore.StoredKeyOfFile` | src/cache/disk_cache_store.cpp:72-77 | a written file gives its key and payload back and is as long as its entry says |
| `DiskStore.StoredKeyExactly` | src/cache/disk_cache_store.cpp:97-102 | a key is read from a file exactly when the file is one that was written for that key |
| `DiskStore.EvictionIsMinimal` | src/cache/disk_cache_store.cpp:141-150 | no smaller set of oldest evictions would have made room |
| `DiskStore.FilesFitEntries` | src/cache/disk_cache_store.cpp:84-89 | files that are all indexed never hold more bytes than the index accounts for, even when several keys share a file name |
| `DiskStore.Store.FilesWithinTotal` | src/cache/disk_cache_store.cpp:137 | in every reachable state with all nonempty files indexed, the bytes on disk are at most the running total |
| `DiskStore.Store.Open` | src/cache/disk_cache_store.cpp:31-58 | from a directory with any unreadable files in it, the rebuilt index serves exactly the keys of at most 4096 bytes that own a file, the order of use being that of the modification times, and accounts for all bytes exactly when no nonempty file was passed over |
| `DiskStore.ReadableConcat` | src/cache/disk_cache_store.cpp:35-57 | the order of use after opening lists the keys file by file, oldest first, passing over files that no key or too long a key is read from |
| `DiskStore.Store.Remove` | src/cache/disk_cache_store.cpp:123-131 | the entry disappears from the index and from the order of use, and unless the system refuses, the file its hash names; the totals stay exact |
| `DiskStore.WithoutExactly` | src/cache/disk_cache_store.cpp:123-131 | taking a key out of the order of use leaves the others in their order |
| `DiskStore.Store.EvictUntilFits` | src/cache/disk_cache_store.cpp:141-150 | the evicted entries are the first in the order of last successful puts and gets, older than every survivor, the rest fits, and putting the newest evicted one back would not |
| `DiskStore.Store.Put` | src/cache/disk_cache_store.cpp:60-91 | a successful put is readable, comes last in the order of use with the survivors before it in their old order, ends within a nonzero budget however full the directory was opened, and evicts exactly; an oversized one changes nothing |
| `DiskStore.Store.Get` | src/cache/disk_cache_store.cpp:93-117 | the answer is nothing or exactly the last payload successfully put under that key, also under colliding file names; a hit moves the key to the end of the order of use and leaves the others in theirs |
| `DiskStore.Reopen` | src/cache/disk_cache_store.cpp:31-58 | after every sequence of operations and reopenings, closing and opening the directory gives every key of at most 4096 bytes the same answer, exactly unless a file survived its removal |
| `DiskStore.RemoveAndReopen` | src/cache/disk_cache_store.cpp:123-131 | if the system refuses to remove the file of a removed key, the key is gone and answers again after reopening |
| `DiskStore.OpenOverLongKey` | src/cache/disk_cache_store.cpp:43 | a store opened over one file with a 4097-byte key accounts for none of it and cannot give it back |
| `CacheManager.EnvelopeRoundTrip` | src/cache/cache_manager.cpp:75-80 | an envelope opens to the position count and packed bytes it was made from |
| `CacheManager.OpensExactly` | src/cache/cache_manager.cpp:94-110 | only the envelope of its own contents opens |
| `CacheManager.UnsealSealed` | src/cache/cache_manager.cpp:64-123 | a stored snapshot yields the text it was taken of and the positions it was said to have |
| `CacheManager.RestoreSealed` | src/cache/cache_manager.cpp:64-123 | the snapshot of a whole text restores that text |
| `CacheManager.StoreState` | src/cache/cache_manager.cpp:64-85 | the last payload stored under the key is the sealed snapshot of the backend, and no other key becomes readable |
| `CacheManager.LoadState` | src/cache/cache_manager.cpp:87-123 | on a hit the backend holds exactly what the last entry stored under the key restores; any entry that cannot be decoded is dropped and is a miss |
| `PrefixCaching.Boundaries` | src/cache/prefix_cache.cpp:14-20 | the marks are exactly the block multiples and the size, ascending |
| `PrefixCaching.MultipleExactly` | src/cache/prefix_cache.cpp:14-20 | the block multiples are the numbers the block size divides |
| `PrefixCaching.PrefixCache.constructor` | src/cache/prefix_cache.cpp:9-12 | a cache is valid over any store that holds snapshots of the texts in play under their keys, whatever else it holds, with blocks of at least one token |
| `PrefixCaching.PrefixCache.SaveSession` | src/core/engine.cpp:475-484 | a session's snapshot under a key of its own leaves the cache valid and makes no other text restorable |
| `PrefixCaching.PrefixCache.TryLoad` | src/cache/cache_manager.cpp:87-123 | the snapshot of a text in play restores exactly that text, and without faults whenever it is there |
| `PrefixCaching.PrefixCache.Restore` | src/cache/prefix_cache.cpp:47-54 | the backend holds exactly the restored boundary, whose snapshot was in the store and which without faults is the longest one stored |
| `PrefixCaching.PrefixCache.DecodeRest` | src/cache/prefix_cache.cpp:57-64 | the backend ends up holding the whole prefix, having decoded exactly what was missing, and without faults every boundary crossed is stored |
| `PrefixCaching.PrefixCache.Prefill` | src/cache/prefix_cache.cpp:38-66 | whatever missed, failed or was evicted, the backend holds exactly the prefix; what is reported as reused was restored from a stored snapshot, and exactly the rest was decoded; without faults the longest stored boundary is used and the snapshots stay closed under block prefixes |
| `PrefixCaching.ClosedAfter` | src/cache/prefix_cache.cpp:47-64 | restoring one boundary and storing every later one keeps the snapshots closed under block prefixes |
| `PrefixCaching.PrefillBoth` | src/cache/prefix_cache.cpp:38-66 | after prefilling one prompt, another sharing L tokens restores at least block * floor(L / block) positions, and at most the remaining ones are decoded |
| `PrefixCaching.GenerateClassic` | src/core/engine.cpp:425-456 | with a warm cache, a cold one or none, the classic loop delivers exactly the same tokens for the same random state; with a cache it decodes no more than the prompt less the restored positions, and one position per token delivered |
| `PrefixCaching.LoadPrompt` | src/core/engine.cpp:427-439 | the prompt is in the backend with its last token decoded afresh; what was restored was in the store, and exactly the rest was decoded |
| `CorpusFile.ReadTokensBack` | src/palimpsest/corpus_index.cpp:149-152 | signed 32-bit tokens read back as written |
| `CorpusFile.LoadsBackExactly` | src/palimpsest/corpus_index.cpp:142-174 | written streams load back if and only if none exceeds 2^26 tokens; a prefix of them loads in any case |
| `CorpusFile.LongStreamLost` | src/palimpsest/corpus_index.cpp:148 | a stream of 2^26 tokens is written and loaded back; one of 2^26 + 1 tokens is written and not loaded |
| `CorpusFile.TruncationLoadsPrefix` | src/palimpsest/corpus_index.cpp:142-160 | a file cut at any byte loads as a prefix of the streams |
| `CorpusFile.LoadsOnlyFrames` | src/palimpsest/corpus_index.cpp:142-160 | whatever the file, what is loaded is encoded at its very beginning |
| `CorpusIndexing.IndexStream` | src/palimpsest/corpus_index.cpp:62-73 | indexing a stream appends its sites to every key and keeps the newest ones |
| `CorpusIndexing.SitesMember` | src/palimpsest/corpus_index.cpp:62-73 | the sites of a key are exactly the places in the log, with an n-gram of that key before them and a token at them in the same stream |
| `CorpusIndexing.LastOfExactly` | src/palimpsest/corpus_index.cpp:69-71 | the sites kept of a key are the newest `max_sites_per_ngram`, all of them if there are fewer |
| `CorpusIndexing.NewestIsMostRecent` | src/palimpsest/corpus_index.cpp:112-138 | searching all sites of a key is the naive search of the log |
| `CorpusIndexing.FoundExactly` | src/palimpsest/corpus_index.cpp:112-138 | what the index finds is the most recent genuine continuation; it finds it if and only if its site was kept, always so without key collisions |
| `CorpusIndexing.CollisionHides` | src/palimpsest/corpus_index.cpp:69-71 | one site per key and two n-grams with one key: the older one is in the log and is not found |
| `CorpusIndexing.UpperBoundIsEnd` | src/palimpsest/corpus_index.cpp:55-60 | the upper bound of the position before a site is the end of the site's own stream |
| `CorpusIndexing.ContinuationInStream` | src/palimpsest/corpus_index.cpp:123-136 | a site, the n-gram before it and its continuation lie inside one stream |
| `CorpusIndexing.NothingLater` | src/palimpsest/corpus_index.cpp:120-138 | the most recent site of the log is the last place, stream by stream, that the n-gram stands before |
| `CorpusIndexing.StreamHasSite` | src/palimpsest/corpus_index.cpp:62-73 | every place inside a stream with a whole n-gram before it is a site |
| `CorpusIndexing.ChooseDrop` | src/palimpsest/corpus_index.cpp:96-103 | the fewest oldest whole streams that bring the log within budget |
| `CorpusIndexing.BuildIndex` | src/palimpsest/corpus_index.cpp:75-82 | rebuilding yields the index of the log |
| `CorpusIndexing.Frames` | src/palimpsest/corpus_index.cpp:162-187 | the bytes written are the frames of the streams from a given one on |
| `CorpusIndexing.LoadStreams` | src/palimpsest/corpus_index.cpp:142-160 | the loading loop reads exactly the whole frames at the front of any file |
| `CorpusIndexing.CorpusIndex.Open` | src/palimpsest/corpus_index.cpp:142-160 | any file opens to the streams it loads, less the fewest oldest over budget, with their index |
| `CorpusIndexing.CorpusIndex.Observe` | src/palimpsest/corpus_index.cpp:84-92 | the log gains the stream and loses the fewest oldest; index and file stay exact |
| `CorpusIndexing.CorpusIndex.EvictOldest` | src/palimpsest/corpus_index.cpp:96-110 | after eviction the index is that of the remaining log and the file holds exactly its streams |
| `CorpusIndexing.CorpusIndex.Flush` | src/palimpsest/corpus_index.cpp:162-174 | the file then decodes to exactly all streams |
| `CorpusIndexing.CorpusIndex.Draft` | src/palimpsest/corpus_index.cpp:112-138 | the draft is not empty exactly when the index finds a site, and then it is `streams[i][j..]` up to k tokens or the end of that stream, where the tail's last n tokens stand right before token j of stream i and at no later place |
| `CorpusIndexing.Reopen` | src/palimpsest/corpus_index.cpp:142-174 | a flushed memory reopens with the same log and index if and only if no stream exceeds 2^26 tokens |
| `Resp.ParseStable` | src/arca/resp.cpp:50-101 | a parsed command or a rejection stands whatever bytes follow |
| `Resp.DrainAppend` | src/arca/resp.cpp:33-42 | draining a longer buffer is draining its front and then the remainder with the new bytes |
| `Resp.ChunkInvariance` | src/arca/resp.cpp:33-42 | every way of cutting a byte stream yields the same commands, the same leftover and the same rejections |
| `Resp.DecBack` | src/arca/resp.cpp:16-29 | printed decimals parse back |
| `Resp.WireFormat` | src/arca/resp.cpp:16-29 | one command and two lengths, byte by byte |
| `Resp.ParseEncoded` | src/arca/resp.cpp:71-100 | an encoded command at the front of any buffer parses to itself and consumes exactly its bytes |
| `Resp.RoundTrip` | src/arca/client.cpp:132-133 | any list of commands of 1 to 1024 binary arguments, encoded, concatenated and cut anywhere, arrives as sent with an empty buffer |
| `Resp.CutNeedsMore` | src/arca/resp.cpp:71-100 | an encoded command cut off anywhere is waited for, neither parsed nor rejected |
| `Resp.Refusals` | src/arca/resp.cpp:71-97 | more than 1024 elements, bulk strings of more than 64 MiB and negative sizes are rejected |
| `Resp.FindCrlfFirst` | src/arca/resp.cpp:17-18 | a line ends at the first CRLF, and is incomplete only if there is none |
| `Resp.WordsClean` | src/arca/resp.cpp:53-66 | no word of an inline command is empty or holds a space |
| `Resp.WordsAtSpace` | src/arca/resp.cpp:58-66 | a space ends a word, and what follows it is split on its own |
| `Resp.WordsOfOne` | src/arca/resp.cpp:58-66 | a line without spaces is one word, or none if it is empty |
| `Resp.WordsBack` | src/arca/resp.cpp:53-66 | words joined by single spaces split back to themselves |
| `Resp.InlineBack` | src/arca/resp.cpp:53-69 | an inline command of words without spaces or carriage returns, the first not starting with a star, arrives as sent |
| `Resp.NothingAsked` | src/arca/resp.cpp:37-40 | a blank line and an array of no elements are consumed and yield no command |
| `Resp.ParseNumberLine` | src/arca/resp.cpp:16-29 | the digit loop decides a length line as the specification does: incomplete, malformed, or a number |
| `Resp.ParseBulks` | src/arca/resp.cpp:78-97 | the loop reads as many bulk strings as announced, asks for more, or rejects |
| `Resp.ParseCommand` | src/arca/resp.cpp:50-101 | the parsing loops compute the command at the front of a buffer |
| `Resp.RespParser.Feed` | src/arca/resp.cpp:33-42 | feeding queues exactly the drained commands and keeps the leftover; a rejected stream keeps its bytes |
| `Resp.RespParser.FeedAll` | src/arca/resp.cpp:33-42 | fed chunk after chunk, the parser queues and keeps what draining the joined stream would |
| `Resp.RespParser.Take` | src/arca/resp.cpp:44-48 | the queued commands are handed over once |
| `Nucleus.SameAsFullSort` | src/core/sampler.cpp:57-89 | the widened search keeps as many tokens, with the same probabilities rank by rank, as any full sort |
| `Nucleus.NucleusIsSmallest` | src/core/sampler.cpp:79-83 | no smaller set of tokens reaches the threshold |
| `Nucleus.NucleusExactly` | src/core/sampler.cpp:77-89 | a nucleus reaches the threshold with the tokens it keeps, which no fewer tokens do; nothing dropped is likelier than anything kept, and what is kept is divided by its mass |
| `Nucleus.TopMassIsLargest` | src/core/sampler.cpp:69-75 | no set of m tokens outweighs the first m of the selection |
| `Nucleus.FindNucleus` | src/core/sampler.cpp:65-86 | widening terminates, and the prefix found is the nucleus of the whole vocabulary |
| `Nucleus.Renormalize` | src/core/sampler.cpp:87-88 | zeroing the tail and dividing by the kept mass in place yields a distribution |
| `Nucleus.ApplyPenalty` | src/core/sampler.cpp:19-30 | the window loop penalizes once per occurrence, in order, tokens outside the vocabulary ignored, and a zero penalty sends positive logits to infinity |
| `Nucleus.PenalizedExactly` | src/core/sampler.cpp:19-30 | with a positive penalty a positive logit is divided, and any other multiplied, by the penalty to the power of the token's occurrences among the newest `repeat_last_n` |
| `Nucleus.PenaltyLowers` | src/core/sampler.cpp:19-30 | a penalty above 1 lowers the nonzero logits of the tokens among the newest `repeat_last_n` and leaves all others alone |
| `Nucleus.Softmax` | src/core/sampler.cpp:41-49 | the result is a distribution whose entries are to each other as the exponentials of their logits over the temperature |
| `Nucleus.SoftmaxExactly` | src/core/sampler.cpp:41-49 | each probability is the exponential of its logit over the temperature, over the sum of all of them; all are positive, and a larger logit has a larger probability |
| `Nucleus.SoftmaxUnique` | src/core/sampler.cpp:41-49 | the logits have one softmax, so subtracting the largest logit first changes nothing |
| `Nucleus.Distribution` | src/core/sampler.cpp:12-91 | only empty logits are refused, and only an infinite logit leaves no number when not greedy; otherwise the result is a distribution, one-hot at the first largest logit when greedy, a top-p nucleus of the softmax below top_p 1, and the softmax itself otherwise |
| `Nucleus.GreedyExactly` | src/core/sampler.cpp:32-39 | greedy, all the probability is on the first of the largest penalized logits, an infinite one above all others |
| `Nucleus.DistributionExactly` | src/core/sampler.cpp:41-91 | otherwise a larger penalized logit is never less likely, kept tokens are to each other as their exponentials, all of the softmax is kept at top_p 1 or above, and its nucleus below |
| `Conclave.Elect` | src/core/conclave.cpp:123-138 | the first answer closest, in sum, to the others |
| `Conclave.ScoreWithout` | src/core/conclave.cpp:128-131 | a score is the similarity to each of the other answers: taking out any one of them takes out its similarity, and an answer alone scores nothing |
| `Conclave.ScoreSwapped` | src/core/conclave.cpp:128-131 | exchanging two of the other answers does not change a score |
| `Conclave.ElectNumeric` | src/core/conclave.cpp:86-113 | the first carrier of the most frequent number if half the answers are numeric and some number has two votes, otherwise the medoid |
| `Conclave.VotesAreVoters` | src/core/conclave.cpp:102-104 | the votes for a number are the candidates that end in it |
| `Conclave.NumericExactly` | src/core/conclave.cpp:90-94 | the numeric candidates are those that end in a number |
| `Conclave.MajorityWins` | src/core/conclave.cpp:86-113 | a number with an absolute majority is the one elected |
| `Conclave.Tally.constructor` | src/core/engine.cpp:275-279 | the tally starts with no votes and no winner |
| `Conclave.Tally.Deposit` | src/core/engine.cpp:281-301 | counts are the votes of complete answers, a winner is set at most once and exactly when a number first has an absolute majority, and late texts do not vote |
| `Conclave.Tally.Conclude` | src/core/engine.cpp:321-341 | an early winner is returned with more than n / 2 votes reported; otherwise the full election over complete answers decides |
| `Conclave.Tally.FullElection` | src/core/conclave.cpp:86-113 | whatever the stopped candidates would have answered, the election over all n complete answers elects the early winner's number |

## Left out

- The llama.cpp binding, zstd, sockets, HTTP, JSON, the command line, configuration and logging; compression and serialization are arbitrary functions with the inverses they promise.
- Prompt lookup and form drafting: the decoder's results hold for every draft, so these are one arbitrary function from texts to proposals of vocabulary tokens.
- SpeculativeDecoding.SpeculativeDecoder.GenerateStream: for sampling with a draft model whose failures depend on more than the text, its contract gives the history of turns but not the distribution. A draft vocabulary larger than the target's is excluded, because its tokens have no target probability.
- The archive's observation of a finished generation from inside the decoder, and timing and token counters other than drafted, accepted and rejected.
- Whether the runtime supports rollback: truncation is taken to succeed.
- A bound on total KV occupancy beyond admission: the budget is checked only when a request is admitted, and histories grow afterwards.
- Liveness of the worker thread and its condition variables; a scheduler's life is any sequence of submissions and steps, each atomic, and a null callback is not representable.
- The response cache in front of the engine, and reading sessions back: plain transparency and a clean round trip do not hold for them as written.
- Detection of arbitrary corruption: files hold what was written, or fail to be read.
- DiskStore.Store.Open: a file from which a key can be read carries the name its key hashes to, as every file a store writes does; renamed copies are not represented.
- DiskStore.Store.WriteFile: the clean-up after a failed write is taken to succeed.
- LRU order across restarts beyond this: an opened store starts with the order of the modification times it is given, which are a parameter. Clearing a store and membership queries that do not read are left out.
- Appending to a torn corpus file: only its load is modelled. Log offsets are not truncated to 32 bits, and corpus file writes are taken to succeed.
- The scan for an answer's final number and the similarity of two answers: the election results hold for every such function, similarity being nonnegative.
- Attempts of a conclave that end in an exception, and the choice of sampling settings per attempt.
- Nucleus.SelectTop: the library's selection and sorting are represented by any procedure meeting the same contract.
- Replies of the RESP server (simple strings, errors, integers, nil). A length too large for a machine integer is a rejection like any other malformed length.
- Rounding of floating-point arithmetic, the internals of the random generator and of the exponential.
