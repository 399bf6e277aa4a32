/**
 The interleaved scheduler: many requests share one backend, each in its own KV sequence, and every
 step advances all of them by one batched pass. Calls are atomic (one mutex), so a run is any
 sequence of `Submit` and `Step` calls; batch failures, sampling faults and callback faults may strike
 anywhere. `Valid` holds between calls, hence in every reachable state.
 */
module Scheduling {
  import opened Backends
  import opened Generation
  import opened Collections

  // ---- The multi-sequence backend ----

  datatype Slice = Slice(slot: int, tokens: seq<Token>, pos: nat)

  ghost predicate DistinctSlices(s: seq<Slice>) {
    forall i, j | 0 <= i < j < |s| :: s[i].slot != s[j].slot
  }

  class MultiBackend {
    const net: Network
    /** Whether batched passes never fail. */
    const reliable: bool
    var seqs: seq<seq<Token>>
    /** How many passes have failed. */
    ghost var failures: nat

    constructor (n: Network, sound: bool, slots: nat)
      ensures net == n && reliable == sound && seqs == seq(slots, i => [])
    {
      net, reliable := n, sound;
      seqs := seq(slots, i => []);
      failures := 0;
    }

    /** One forward pass over several sequences. Every slice continues its sequence where that ends. A failed pass may
        leave anything in the sequences it touched, and nothing in the others. */
    method DecodeSeqs(slices: seq<Slice>) returns (ok: bool, logits: seq<Logits>)
      requires forall i | 0 <= i < |slices| :: 0 <= slices[i].slot < |seqs| && slices[i].pos == |seqs[slices[i].slot]|
      requires DistinctSlices(slices)
      modifies this
      ensures |seqs| == |old(seqs)| && (reliable ==> ok)
      ensures failures == old(failures) + (if ok then 0 else 1)
      ensures ok ==> |logits| == |slices|
      ensures ok ==> forall i | 0 <= i < |slices| ::
                seqs[slices[i].slot] == old(seqs)[slices[i].slot] + slices[i].tokens
      ensures ok ==> forall i | 0 <= i < |slices| :: logits[i] == net.logits(seqs[slices[i].slot])
      ensures forall t | 0 <= t < |seqs| && (forall i | 0 <= i < |slices| :: slices[i].slot != t) ::
                seqs[t] == old(seqs)[t]
    {
      var fault: bool := *;
      ok := reliable || !fault;
      logits := [];
      for i := 0 to |slices|
        invariant |seqs| == |old(seqs)| && |logits| == i && failures == old(failures)
        invariant forall j | i <= j < |slices| :: seqs[slices[j].slot] == old(seqs)[slices[j].slot]
        invariant ok ==> forall j | 0 <= j < i :: seqs[slices[j].slot] == old(seqs)[slices[j].slot] + slices[j].tokens
        invariant ok ==> forall j | 0 <= j < i :: logits[j] == net.logits(seqs[slices[j].slot])
        invariant forall t | 0 <= t < |seqs| && (forall j | 0 <= j < |slices| :: slices[j].slot != t) ::
                    seqs[t] == old(seqs)[t]
      {
        var t := slices[i].slot;
        if ok {
          seqs := seqs[t := seqs[t] + slices[i].tokens];
        } else {
          var junk: seq<Token> := *;
          seqs := seqs[t := junk];
        }
        logits := logits + [net.logits(seqs[t])];
      }
      if !ok { failures := failures + 1; }
    }

    method ClearSeq(t: int)
      requires 0 <= t < |seqs|
      modifies this`seqs
      ensures seqs == old(seqs)[t := []]
    {
      seqs := seqs[t := []];
    }

    /** Copies the first `n` positions of `src` into the empty sequence `dst`. */
    method CopySeq(src: int, dst: int, n: nat)
      requires 0 <= src < |seqs| && 0 <= dst < |seqs| && seqs[dst] == [] && n <= |seqs[src]|
      modifies this`seqs
      ensures seqs == old(seqs)[dst := old(seqs)[src][..n]]
    {
      seqs := seqs[dst := seqs[src][..n]];
    }
  }

  // ---- Requests ----

  /** A request in the scheduler. `slot` is -1 while it waits. */
  datatype Job = Job(id: nat, gen: Request, history: seq<Token>, promptLen: nat, rng: Rng, emitted: nat,
                     slot: int, nPast: nat, needsPrefill: bool)

  /** What a caller handed in. */
  datatype Submission = Submission(gen: Request, prompt: seq<Token>, rng: Rng)

  datatype Status = Succeeded | Failed

  /** Everything a fault-free solo run of the submission delivers. */
  function SoloRun(s: Submission): seq<Token> {
    ServedFrom(s.gen, s.prompt, [], s.rng)
  }

  lemma {:induction false} ServedExtends(g: Request, prompt: seq<Token>, out: seq<Token>, rng: Rng)
    ensures out <= ServedFrom(g, prompt, out, rng)
    decreases g.maxTokens - |out|
  {
    var (t, rng') := Next(g, rng, prompt + out);
    if !g.net.eog(t) && g.keepGoing(out + [t]) && |out| + 1 < g.maxTokens && |prompt| + |out| + 1 < g.net.nCtx {
      ServedExtends(g, prompt, out + [t], rng');
    }
  }

  ghost function Slots(l: seq<Job>): set<int> {
    set i | 0 <= i < |l| :: l[i].slot
  }

  ghost function Ids(l: seq<Job>): set<nat> {
    set i | 0 <= i < |l| :: l[i].id
  }

  ghost predicate Distinct(l: seq<Job>) {
    forall i, j | 0 <= i < j < |l| :: l[i].slot != l[j].slot && l[i].id != l[j].id
  }

  /** Tokens a request may still deliver, at least one while it is alive. */
  function Budget(j: Job): nat {
    var max := if j.gen.maxTokens > 1 then j.gen.maxTokens else 1;
    if j.emitted < max then max - j.emitted else 0
  }

  function Work(l: seq<Job>): nat {
    if l == [] then 0 else Work(l[..|l| - 1]) + Budget(l[|l| - 1])
  }

  lemma {:induction false} WorkConcat(a: seq<Job>, b: seq<Job>)
    ensures Work(a + b) == Work(a) + Work(b)
    decreases |b|
  {
    if b == [] {
      assert a + b == a;
    } else {
      assert (a + b)[..|a + b| - 1] == a + b[..|b| - 1];
      WorkConcat(a, b[..|b| - 1]);
    }
  }

  lemma SetsOfConcat(a: seq<Job>, b: seq<Job>)
    ensures Slots(a + b) == Slots(a) + Slots(b)
    ensures Ids(a + b) == Ids(a) + Ids(b)
  {
    forall x | x in Slots(a) + Slots(b) ensures x in Slots(a + b) {
      if x in Slots(a) {
        var i :| 0 <= i < |a| && a[i].slot == x;
        assert (a + b)[i].slot == x;
      } else {
        var i :| 0 <= i < |b| && b[i].slot == x;
        assert (a + b)[|a| + i].slot == x;
      }
    }
    forall x | x in Ids(a) + Ids(b) ensures x in Ids(a + b) {
      if x in Ids(a) {
        var i :| 0 <= i < |a| && a[i].id == x;
        assert (a + b)[i].id == x;
      } else {
        var i :| 0 <= i < |b| && b[i].id == x;
        assert (a + b)[|a| + i].id == x;
      }
    }
  }

  lemma IdsMember(l: seq<Job>)
    ensures forall i | 0 <= i < |l| :: l[i].id in Ids(l)
  {
  }

  lemma SetsOfOne(j: Job)
    ensures Slots([j]) == {j.slot} && Ids([j]) == {j.id}
  {
    assert [j][0] == j;
  }

  /** The sets of a list around one of its members. */
  lemma SetsAround(a: seq<Job>, j: Job, b: seq<Job>)
    ensures Slots(a + [j] + b) == Slots(a + b) + {j.slot}
    ensures Ids(a + [j] + b) == Ids(a + b) + {j.id}
    ensures Distinct(a + [j] + b) <==> Distinct(a + b) && j.slot !in Slots(a + b) && j.id !in Ids(a + b)
  {
    SetsOfConcat(a + [j], b);
    SetsOfConcat(a, [j]);
    SetsOfConcat(a, b);
    SetsOfOne(j);
    if Distinct(a + [j] + b) { DistinctWithout(a, j, b); }
    if Distinct(a + b) && j.slot !in Slots(a + b) && j.id !in Ids(a + b) { DistinctWith(a, j, b); }
  }

  lemma DistinctWithout(a: seq<Job>, j: Job, b: seq<Job>)
    requires Distinct(a + [j] + b)
    ensures Distinct(a + b) && j.slot !in Slots(a + b) && j.id !in Ids(a + b)
  {
    var l, m := a + [j] + b, a + b;
    assert l[|a|] == j;
    assert forall x | 0 <= x < |m| :: m[x] == l[if x < |a| then x else x + 1];
  }

  lemma DistinctWith(a: seq<Job>, j: Job, b: seq<Job>)
    requires Distinct(a + b) && j.slot !in Slots(a + b) && j.id !in Ids(a + b)
    ensures Distinct(a + [j] + b)
  {
    var l, m := a + [j] + b, a + b;
    forall x, y | 0 <= x < y < |l| ensures l[x].slot != l[y].slot && l[x].id != l[y].id {
      if x == |a| {
        assert l[y] == m[y - 1];
      } else if y == |a| {
        assert l[x] == m[x];
      } else {
        assert l[x] == m[if x < |a| then x else x - 1] && l[y] == m[if y < |a| then y else y - 1];
      }
    }
  }

  // ---- Slots ----

  /** The used slots are exactly those of the live requests, and a free slot holds nothing. */
  ghost predicate SlotsMatch(used: seq<bool>, seqs: seq<seq<Token>>, l: seq<Job>) {
    && Distinct(l) && |used| == |seqs|
    && (forall t | t in Slots(l) :: 0 <= t < |used|)
    && (forall t | 0 <= t < |used| :: used[t] <==> t in Slots(l))
    && (forall t | 0 <= t < |used| && !used[t] :: seqs[t] == [])
  }

  /** The backend holds exactly the first `nPast` tokens of the request: none before its prefill, all but the newest
      after it. */
  ghost predicate Cached(seqs: seq<seq<Token>>, j: Job) {
    && 0 <= j.slot < |seqs| && j.nPast <= |j.history|
    && seqs[j.slot] == j.history[..j.nPast]
    && (if j.needsPrefill then j.nPast == 0 && |j.history| == j.promptLen else j.nPast == |j.history| - 1)
  }

  lemma {:induction false} SlotsCard(l: seq<Job>)
    ensures |Slots(l)| <= |l|
  {
    if l != [] {
      var m, j := l[..|l| - 1], l[|l| - 1];
      assert l == m + [j];
      SlotsCard(m);
      SetsOfConcat(m, [j]);
      SetsOfOne(j);
    }
  }

  /** With fewer live requests than slots, some slot is free. */
  lemma FreeSlot(used: seq<bool>, seqs: seq<seq<Token>>, l: seq<Job>)
    requires SlotsMatch(used, seqs, l) && |l| < |used|
    ensures exists t | 0 <= t < |used| :: !used[t]
  {
    SlotsCard(l);
    SubsetCard(UpTo(|used|), Slots(l));
    var t :| t in UpTo(|used|) && t !in Slots(l);
    assert !used[t];
  }

  lemma TakeSlot(used: seq<bool>, seqs: seq<seq<Token>>, l: seq<Job>, j: Job, kv: seq<Token>)
    requires SlotsMatch(used, seqs, l) && 0 <= j.slot < |used| && !used[j.slot] && j.id !in Ids(l)
    ensures SlotsMatch(used[j.slot := true], seqs[j.slot := kv], l + [j])
  {
    SetsAround(l, j, []);
    assert l + [j] + [] == l + [j] && l + [] == l;
  }

  lemma ReturnSlot(used: seq<bool>, seqs: seq<seq<Token>>, a: seq<Job>, j: Job, b: seq<Job>)
    requires SlotsMatch(used, seqs, a + [j] + b)
    ensures 0 <= j.slot < |used| && SlotsMatch(used[j.slot := false], seqs[j.slot := []], a + b)
  {
    SetsAround(a, j, b);
  }

  /** A live request may change everything but its slot and its id. */
  lemma KeepSlot(used: seq<bool>, seqs: seq<seq<Token>>, a: seq<Job>, j: Job, j': Job, b: seq<Job>)
    requires SlotsMatch(used, seqs, a + [j] + b) && j'.slot == j.slot && j'.id == j.id
    ensures SlotsMatch(used, seqs, a + [j'] + b)
  {
    SetsAround(a, j, b);
    SetsAround(a, j', b);
  }

  // ---- Books: what was submitted, what was delivered, what is done ----

  datatype Ledger = Ledger(subs: map<nat, Submission>, delivered: map<nat, seq<Token>>, done: map<nat, Status>)

  /** What a live request has delivered is the beginning of its solo run, and its own sampler is where that run's is. */
  ghost predicate OnTrack(net: Network, s: Submission, out: seq<Token>, j: Job) {
    && j.gen == s.gen && s.gen.net == net && 0 < |s.prompt| <= net.nCtx
    && j.promptLen == |s.prompt| && j.history == s.prompt + out && j.emitted == |out|
    && ServedFrom(s.gen, s.prompt, out, j.rng) == SoloRun(s)
    && (out == [] || (|out| < s.gen.maxTokens && |j.history| < net.nCtx))
  }

  ghost predicate Tracked(net: Network, k: Ledger, j: Job) {
    j.id in k.subs && j.id in k.delivered && OnTrack(net, k.subs[j.id], k.delivered[j.id], j)
  }

  /** What a finished request delivered: its whole solo run, or a prefix of it if it failed. */
  ghost predicate Settled(k: Ledger, id: nat) {
    && id in k.subs && id in k.delivered && id in k.done
    && k.delivered[id] <= SoloRun(k.subs[id])
    && (k.done[id].Succeeded? ==> k.delivered[id] == SoloRun(k.subs[id]))
  }

  ghost predicate Waiting(net: Network, k: Ledger, j: Job) {
    Tracked(net, k, j) && k.delivered[j.id] == [] && j.slot == -1 && j.nPast == 0 && j.needsPrefill
  }

  /** Every submitted id is live, waiting or done, in exactly one way; those that wait are in submission order and
      were submitted after every one that does not. */
  ghost predicate Partition(k: Ledger, pending: seq<Job>, nextId: nat, l: seq<Job>) {
    && Distinct(l) && Ids(l) !! k.done.Keys
    && k.subs.Keys == k.delivered.Keys == Ids(l) + Ids(pending) + k.done.Keys
    && (forall id | id in k.subs :: id < nextId)
    && (forall i, j | 0 <= i < j < |pending| :: pending[i].id < pending[j].id)
    && (forall id, i | id in Ids(l) && 0 <= i < |pending| :: id < pending[i].id)
    && (forall id, i | id in k.done && 0 <= i < |pending| :: id < pending[i].id)
  }

  ghost predicate AllTracked(net: Network, k: Ledger, pending: seq<Job>, l: seq<Job>) {
    && (forall i | 0 <= i < |l| :: Tracked(net, k, l[i]))
    && (forall i | 0 <= i < |pending| :: Waiting(net, k, pending[i]))
    && (forall id | id in k.done :: Settled(k, id))
  }

  ghost predicate Books(net: Network, k: Ledger, pending: seq<Job>, nextId: nat, l: seq<Job>) {
    Partition(k, pending, nextId, l) && AllTracked(net, k, pending, l)
  }

  /** Later ledgers know everything earlier ones did, and never touch a finished request again. */
  ghost predicate Extends(k: Ledger, k': Ledger) {
    && k.done.Keys <= k'.done.Keys && k.subs.Keys <= k'.subs.Keys && k.delivered.Keys <= k'.delivered.Keys
    && (forall id | id in k.subs :: k'.subs[id] == k.subs[id])
    && (forall id | id in k.delivered :: k.delivered[id] <= k'.delivered[id])
    && (forall id | id in k.done :: k'.done[id] == k.done[id])
    && (forall id | id in k.done && id in k.delivered :: k'.delivered[id] == k.delivered[id])
  }

  /** Of the requests finished since, only those in `faults` failed. */
  ghost predicate OnlyFaulty(k: Ledger, k': Ledger, faults: set<nat>) {
    forall id | id in k'.done && id !in k.done && k'.done[id].Failed? :: id in faults
  }

  /** A request got one more token, or it is done; either way no more than one. */
  ghost predicate Advanced(k: Ledger, k': Ledger, id: nat) {
    && id in k.delivered && id in k'.delivered && |k'.delivered[id]| <= |k.delivered[id]| + 1
    && (id in k'.done || |k'.delivered[id]| == |k.delivered[id]| + 1)
  }

  ghost predicate Untouched(k: Ledger, k': Ledger, id: nat) {
    id in k.delivered && id in k'.delivered && k'.delivered[id] == k.delivered[id] && (id in k'.done ==> id in k.done)
  }

  ghost predicate ServedOne(k: Ledger, k': Ledger, id: nat) {
    Advanced(k, k', id) && forall x | x in k.delivered && x != id :: Untouched(k, k', x)
  }

  /** The first `i` requests were served, and nobody else was. */
  ghost predicate ServedSoFar(k: Ledger, k': Ledger, jobs: seq<Job>, i: nat)
    requires i <= |jobs|
  {
    && (forall x | 0 <= x < i :: Advanced(k, k', jobs[x].id))
    && (forall id | id in k.delivered && (forall x | 0 <= x < i :: jobs[x].id != id) :: Untouched(k, k', id))
  }

  lemma ServedNext(k: Ledger, k1: Ledger, k2: Ledger, jobs: seq<Job>, i: nat)
    requires i < |jobs| && ServedSoFar(k, k1, jobs, i) && Distinct(jobs) && jobs[i].id in k.delivered
    requires ServedOne(k1, k2, jobs[i].id) && Extends(k1, k2)
    ensures ServedSoFar(k, k2, jobs, i + 1)
  {
    assert Untouched(k, k1, jobs[i].id);
    forall x | 0 <= x < i ensures Advanced(k, k2, jobs[x].id) {
      assert Advanced(k, k1, jobs[x].id) && Untouched(k1, k2, jobs[x].id);
    }
    forall id | id in k.delivered && (forall x | 0 <= x < i + 1 :: jobs[x].id != id) ensures Untouched(k, k2, id) {
      assert jobs[i].id != id;
      assert Untouched(k, k1, id) && Untouched(k1, k2, id);
    }
  }

  lemma ServedNone(k: Ledger, jobs: seq<Job>)
    ensures ServedSoFar(k, k, jobs, 0)
  {
  }

  lemma OnlyFaultyTrans(a: Ledger, b: Ledger, c: Ledger, faults: set<nat>)
    requires OnlyFaulty(a, b, faults) && OnlyFaulty(b, c, faults) && Extends(b, c)
    ensures OnlyFaulty(a, c, faults)
  {
  }

  lemma ExtendsRefl(k: Ledger)
    ensures Extends(k, k)
  {
  }

  lemma ExtendsTrans(a: Ledger, b: Ledger, c: Ledger)
    requires Extends(a, b) && Extends(b, c)
    ensures Extends(a, c)
  {
  }

  function Opened(k: Ledger, id: nat, s: Submission): Ledger {
    Ledger(k.subs[id := s], k.delivered[id := []], k.done)
  }

  function Delivered(k: Ledger, id: nat, out: seq<Token>): Ledger {
    Ledger(k.subs, k.delivered[id := out], k.done)
  }

  function Closed(k: Ledger, id: nat, out: seq<Token>, st: Status): Ledger {
    Ledger(k.subs, k.delivered[id := out], k.done[id := st])
  }

  /** Two ledgers that agree on an id agree on everything said about it. */
  ghost predicate Same(k: Ledger, k': Ledger, id: nat) {
    && (id in k.subs ==> id in k'.subs && k'.subs[id] == k.subs[id])
    && (id in k.delivered ==> id in k'.delivered && k'.delivered[id] == k.delivered[id])
    && (id in k.done ==> id in k'.done && k'.done[id] == k.done[id])
  }

  lemma SameTracked(net: Network, k: Ledger, k': Ledger, j: Job)
    requires Same(k, k', j.id)
    ensures Tracked(net, k, j) ==> Tracked(net, k', j)
    ensures Waiting(net, k, j) ==> Waiting(net, k', j)
    ensures Settled(k, j.id) ==> Settled(k', j.id)
  {
  }

  /** Changing the ledger at one id only leaves every other request tracked. */
  lemma AllTrackedExcept(net: Network, k: Ledger, k': Ledger, pending: seq<Job>, l: seq<Job>, x: nat)
    requires AllTracked(net, k, pending, l)
    requires forall id: nat | id != x :: Same(k, k', id)
    requires k'.done.Keys <= k.done.Keys + {x} && (x in k'.done ==> Settled(k', x))
    requires forall i | 0 <= i < |pending| :: pending[i].id != x
    requires forall i | 0 <= i < |l| :: l[i].id != x
    ensures AllTracked(net, k', pending, l)
  {
    forall i | 0 <= i < |l| ensures Tracked(net, k', l[i]) { SameTracked(net, k, k', l[i]); }
    forall i | 0 <= i < |pending| ensures Waiting(net, k', pending[i]) { SameTracked(net, k, k', pending[i]); }
    forall id | id in k'.done ensures Settled(k', id) {
      if id != x { SettledSame(k, k', id); }
    }
  }

  lemma SettledSame(k: Ledger, k': Ledger, id: nat)
    requires Settled(k, id) && Same(k, k', id)
    ensures Settled(k', id)
  {
  }

  lemma AllTrackedSplit(net: Network, k: Ledger, pending: seq<Job>, a: seq<Job>, j: Job, b: seq<Job>)
    ensures AllTracked(net, k, pending, a + [j] + b) <==> Tracked(net, k, j) && AllTracked(net, k, pending, a + b)
  {
    var l, m := a + [j] + b, a + b;
    if AllTracked(net, k, pending, l) {
      forall i | 0 <= i < |m| ensures Tracked(net, k, m[i]) {
        assert m[i] == l[if i < |a| then i else i + 1];
      }
      assert l[|a|] == j;
    }
    if Tracked(net, k, j) && AllTracked(net, k, pending, m) {
      forall i | 0 <= i < |l| ensures Tracked(net, k, l[i]) {
        if i != |a| { assert l[i] == m[if i < |a| then i else i - 1]; }
      }
    }
  }

  lemma SubmitBooks(net: Network, k: Ledger, pending: seq<Job>, nextId: nat, l: seq<Job>, s: Submission)
    requires Books(net, k, pending, nextId, l)
    requires s.gen.net == net && 0 < |s.prompt| <= net.nCtx
    ensures var j := Job(nextId, s.gen, s.prompt, |s.prompt|, s.rng, 0, -1, 0, true);
            var k' := Opened(k, nextId, s);
            Books(net, k', pending + [j], nextId + 1, l) && Extends(k, k')
    ensures nextId !in k.subs
  {
    hide Partition, AllTracked, Tracked, Extends, SoloRun;
    var j := Job(nextId, s.gen, s.prompt, |s.prompt|, s.rng, 0, -1, 0, true);
    var k' := Opened(k, nextId, s);
    SubmitPartition(k, pending, nextId, l, s, j);
    OpenedWaits(net, k, nextId, s, j);
    AllTrackedExcept(net, k, k', pending, l, nextId);
    TrackedSnoc(net, k', pending, l, j);
  }

  lemma OpenedWaits(net: Network, k: Ledger, id: nat, s: Submission, j: Job)
    requires id !in k.subs && id !in k.done && s.gen.net == net && 0 < |s.prompt| <= net.nCtx
    requires j == Job(id, s.gen, s.prompt, |s.prompt|, s.rng, 0, -1, 0, true)
    ensures Waiting(net, Opened(k, id, s), j)
    ensures var k' := Opened(k, id, s);
            (forall x: nat | x != id :: Same(k, k', x)) && id !in k'.done && k'.done.Keys <= k.done.Keys + {id}
  {
    assert s.prompt + [] == s.prompt;
  }

  lemma TrackedSnoc(net: Network, k: Ledger, pending: seq<Job>, l: seq<Job>, j: Job)
    requires AllTracked(net, k, pending, l) && Waiting(net, k, j)
    ensures AllTracked(net, k, pending + [j], l)
  {
    hide Tracked, Settled, Waiting;
    var all := pending + [j];
    forall i | 0 <= i < |all| ensures Waiting(net, k, all[i]) {
      assert all[i] == if i < |pending| then pending[i] else j;
    }
  }

  lemma SubmitPartition(k: Ledger, pending: seq<Job>, nextId: nat, l: seq<Job>, s: Submission, j: Job)
    requires Partition(k, pending, nextId, l) && j.id == nextId
    ensures var k' := Opened(k, nextId, s);
            Partition(k', pending + [j], nextId + 1, l) && Extends(k, k')
    ensures nextId !in k.subs && nextId !in k.done
    ensures forall i | 0 <= i < |pending| :: pending[i].id != nextId
    ensures forall i | 0 <= i < |l| :: l[i].id != nextId
  {
    hide Slots, Ids, Distinct;
    SetsOfConcat(pending, [j]);
    SetsOfOne(j);
    IdsMember(pending);
    IdsMember(l);
    assert nextId !in k.subs;
    var all := pending + [j];
    forall x, y | 0 <= x < y < |all| ensures all[x].id < all[y].id {
      assert all[x] == pending[x] && (y < |pending| ==> all[y] == pending[y]);
    }
  }

  /** The oldest waiting request becomes live. */
  lemma AdmitBooks(net: Network, k: Ledger, pending: seq<Job>, nextId: nat, l: seq<Job>, j: Job)
    requires Books(net, k, pending, nextId, l) && pending != []
    requires j == pending[0].(slot := j.slot, nPast := j.nPast, needsPrefill := j.needsPrefill)
    requires j.slot !in Slots(l)
    ensures j.id !in Ids(l) && Books(net, k, pending[1..], nextId, l + [j])
  {
    hide Partition, AllTracked, Slots, Ids, Distinct;
    AdmitPartition(k, pending, nextId, l, j);
    AdmitTracked(net, k, pending, l, j);
  }

  /** Admission changes nothing of what a request's books say. */
  lemma AdmitTracked(net: Network, k: Ledger, pending: seq<Job>, l: seq<Job>, j: Job)
    requires AllTracked(net, k, pending, l) && pending != []
    requires j == pending[0].(slot := j.slot, nPast := j.nPast, needsPrefill := j.needsPrefill)
    ensures AllTracked(net, k, pending[1..], l + [j])
  {
    hide Tracked, Settled;
    var rest, m := pending[1..], l + [j];
    WaitingTracked(net, k, pending[0], j);
    forall i | 0 <= i < |rest| ensures Waiting(net, k, rest[i]) {
      assert rest[i] == pending[i + 1];
    }
    forall i | 0 <= i < |m| ensures Tracked(net, k, m[i]) {
      assert m[i] == if i < |l| then l[i] else j;
    }
  }

  lemma WaitingTracked(net: Network, k: Ledger, w: Job, j: Job)
    requires Waiting(net, k, w) && j == w.(slot := j.slot, nPast := j.nPast, needsPrefill := j.needsPrefill)
    ensures Tracked(net, k, j)
  {
    hide SoloRun;
  }

  lemma AdmitPartition(k: Ledger, pending: seq<Job>, nextId: nat, l: seq<Job>, j: Job)
    requires Partition(k, pending, nextId, l) && pending != [] && j.id == pending[0].id && j.slot !in Slots(l)
    ensures j.id !in Ids(l) && Partition(k, pending[1..], nextId, l + [j])
  {
    hide Slots, Ids, Distinct;
    var rest := pending[1..];
    assert pending == [pending[0]] + rest;
    SetsOfConcat([pending[0]], rest);
    SetsOfOne(pending[0]);
    IdsMember(rest);
    SetsAround(l, j, []);
    assert l + [j] + [] == l + [j] && l + [] == l;
    assert j.id !in Ids(l) && j.id !in k.done;
    assert forall i | 0 <= i < |rest| :: rest[i] == pending[i + 1];
  }

  /** A live request settles, having delivered `out`. */
  lemma FinishBooks(net: Network, k: Ledger, pending: seq<Job>, nextId: nat, a: seq<Job>, j: Job, b: seq<Job>,
                    out: seq<Token>, st: Status)
    requires Books(net, k, pending, nextId, a + [j] + b)
    requires j.id in k.subs && j.id in k.delivered
    requires k.delivered[j.id] <= out <= SoloRun(k.subs[j.id])
    requires st.Succeeded? ==> out == SoloRun(k.subs[j.id])
    ensures var k' := Closed(k, j.id, out, st);
            Books(net, k', pending, nextId, a + b) && Extends(k, k')
  {
    hide Partition, AllTracked, Tracked, Extends, SoloRun;
    var k' := Closed(k, j.id, out, st);
    LeavePartition(k, pending, nextId, a, j, b);
    AllTrackedSplit(net, k, pending, a, j, b);
    ClosedSame(k, j.id, out, st);
    AllTrackedExcept(net, k, k', pending, a + b, j.id);
    FinishPartition(k, pending, nextId, a, j, b, out, st);
  }

  /** No other live or waiting request shares an id. */
  lemma ClosedSame(k: Ledger, id: nat, out: seq<Token>, st: Status)
    requires id in k.subs && id in k.delivered && id !in k.done
    requires out <= SoloRun(k.subs[id]) && (st.Succeeded? ==> out == SoloRun(k.subs[id]))
    ensures var k' := Closed(k, id, out, st);
            && (forall x: nat | x != id :: Same(k, k', x)) && Settled(k', id) && k'.done.Keys <= k.done.Keys + {id}
  {
    hide SoloRun;
  }

  lemma DeliveredSame(k: Ledger, id: nat, out: seq<Token>)
    requires id in k.delivered && id !in k.done
    ensures var k' := Delivered(k, id, out);
            && (forall x: nat | x != id :: Same(k, k', x)) && id !in k'.done && k'.done.Keys <= k.done.Keys + {id}
            && (k.delivered[id] <= out ==> Extends(k, k'))
  {
  }

  lemma LeavePartition(k: Ledger, pending: seq<Job>, nextId: nat, a: seq<Job>, j: Job, b: seq<Job>)
    requires Partition(k, pending, nextId, a + [j] + b)
    ensures j.id in k.subs && j.id in k.delivered && j.id !in k.done
    ensures forall i | 0 <= i < |pending| :: pending[i].id != j.id
    ensures forall i | 0 <= i < |a + b| :: (a + b)[i].id != j.id
  {
    SetsAround(a, j, b);
    assert j.id in Ids(a + [j] + b);
    assert forall i | 0 <= i < |a + b| :: (a + b)[i].id in Ids(a + b);
  }

  lemma FinishPartition(k: Ledger, pending: seq<Job>, nextId: nat, a: seq<Job>, j: Job, b: seq<Job>,
                        out: seq<Token>, st: Status)
    requires Partition(k, pending, nextId, a + [j] + b)
    requires j.id in k.delivered && k.delivered[j.id] <= out
    ensures var k' := Closed(k, j.id, out, st);
            Partition(k', pending, nextId, a + b) && Extends(k, k')
  {
    SetsAround(a, j, b);
    LeavePartition(k, pending, nextId, a, j, b);
    assert j.id in Ids(a + [j] + b);
  }

  /** A live request delivers one more token and goes on. */
  lemma AdvancePartition(k: Ledger, pending: seq<Job>, nextId: nat, a: seq<Job>, j: Job, j': Job, b: seq<Job>,
                         out: seq<Token>)
    requires Partition(k, pending, nextId, a + [j] + b) && j.id in k.delivered && j'.id == j.id && j'.slot == j.slot
    ensures Partition(Delivered(k, j.id, out), pending, nextId, a + [j'] + b)
  {
    hide Slots, Ids, Distinct;
    SetsAround(a, j, b);
    SetsAround(a, j', b);
  }

  lemma AdvanceBooks(net: Network, k: Ledger, pending: seq<Job>, nextId: nat, a: seq<Job>, j: Job, j': Job, b: seq<Job>,
                     out: seq<Token>)
    requires Books(net, k, pending, nextId, a + [j] + b)
    requires j.id in k.delivered && k.delivered[j.id] <= out
    requires j'.id == j.id && j'.slot == j.slot
    requires Tracked(net, Delivered(k, j.id, out), j')
    ensures var k' := Delivered(k, j.id, out);
            Books(net, k', pending, nextId, a + [j'] + b) && Extends(k, k')
  {
    hide Partition, AllTracked, Tracked, Extends;
    var k' := Delivered(k, j.id, out);
    LeavePartition(k, pending, nextId, a, j, b);
    AllTrackedSplit(net, k, pending, a, j, b);
    DeliveredSame(k, j.id, out);
    AllTrackedExcept(net, k, k', pending, a + b, j.id);
    AllTrackedSplit(net, k', pending, a, j', b);
    AdvancePartition(k, pending, nextId, a, j, j', b, out);
  }

  // ---- Serving one request ----

  function Served(j: Job, t: Token, rng: Rng): Job {
    j.(history := j.history + [t], rng := rng, emitted := j.emitted + 1, nPast := |j.history|, needsPrefill := false)
  }

  predicate Spent(j: Job, out: seq<Token>) {
    !j.gen.keepGoing(out) || j.emitted >= j.gen.maxTokens || |j.history| >= j.gen.net.nCtx
  }

  /** The token sampled for a request is the next one of its solo run, and the tests made after it are that run's. */
  lemma ServeStep(net: Network, s: Submission, out: seq<Token>, j: Job)
    requires OnTrack(net, s, out, j)
    ensures j.gen.net == net && out <= SoloRun(s)
    ensures var (t, rng) := Next(j.gen, j.rng, j.history);
            && (net.eog(t) ==> SoloRun(s) == out)
            && (!net.eog(t) ==>
                  && out + [t] <= SoloRun(s)
                  && (if Spent(Served(j, t, rng), out + [t]) then SoloRun(s) == out + [t]
                      else OnTrack(net, s, out + [t], Served(j, t, rng))))
  {
    ServedExtends(s.gen, s.prompt, out, j.rng);
    var (t, rng) := Next(j.gen, j.rng, j.history);
    assert (s.prompt + out) + [t] == s.prompt + (out + [t]);
    ServedExtends(s.gen, s.prompt, out + [t], rng);
  }

  function Cells(l: seq<Job>): nat {
    if l == [] then 0 else Cells(l[..|l| - 1]) + |l[|l| - 1].history|
  }

  // ---- Admission ----

  predicate SamePrompt(j: Job, prompt: seq<Token>) {
    j.promptLen == |prompt| <= |j.history| && j.history[..|prompt|] == prompt
  }

  predicate NoDonor(l: seq<Job>, prompt: seq<Token>, n: nat)
    requires n <= |l|
  {
    forall i | 0 <= i < n :: !SamePrompt(l[i], prompt)
  }

  predicate IsDonor(l: seq<Job>, prompt: seq<Token>, d: nat) {
    d < |l| && SamePrompt(l[d], prompt) && NoDonor(l, prompt, d)
  }

  /** The oldest waiting request does not fit beside the live ones, or the one it could be cloned from is
      still prefilling. */
  ghost predicate Held(nCtx: nat, l: seq<Job>, prompt: seq<Token>) {
    || Cells(l) + |prompt| > nCtx
    || (|prompt| > 1 && exists d: nat :: IsDonor(l, prompt, d) && l[d].nPast < l[d].promptLen)
  }

  /** The request at `m` skips its prefill exactly when a request before it has the same prompt, longer than
      one token. */
  ghost predicate ClonedIfPossible(l: seq<Job>, m: nat) {
    m < |l| && (l[m].needsPrefill <==> |l[m].history| <= 1 || NoDonor(l, l[m].history, m))
  }

  /** A newcomer is prefilled from scratch exactly when its prompt is a single token or no request before it has that
      very prompt at the front of its history. */
  lemma ClonedExactly(l: seq<Job>, m: nat)
    requires m < |l|
    ensures ClonedIfPossible(l, m) <==>
              (l[m].needsPrefill <==>
                |l[m].history| <= 1
                || forall d | 0 <= d < m ::
                     l[d].promptLen == |l[m].history| <= |l[d].history| ==>
                       l[d].history[..l[d].promptLen] != l[m].history)
  {
    var prompt := l[m].history;
    if NoDonor(l, prompt, m) {
      assert forall d | 0 <= d < m :: !SamePrompt(l[d], prompt);
    } else {
      var d :| 0 <= d < m && SamePrompt(l[d], prompt);
      assert l[d].history[..l[d].promptLen] == prompt;
    }
  }

  /** The same requests in the same order, wherever they are. */
  ghost predicate SameRequests(a: seq<Job>, b: seq<Job>) {
    |a| == |b| && forall i | 0 <= i < |a| :: a[i].id == b[i].id && a[i].history == b[i].history
  }

  lemma OneMoreRequest(a: seq<Job>, b: seq<Job>, x: Job, y: Job)
    requires SameRequests(a, b) && x.id == y.id && x.history == y.history
    ensures SameRequests(a + [x], b + [y])
  {
  }

  lemma NoRequests(a: seq<Job>, b: seq<Job>)
    ensures SameRequests(a[|a|..], b[..0])
  {
  }

  lemma ClonedStays(l: seq<Job>, l': seq<Job>, m: nat)
    requires ClonedIfPossible(l, m) && |l| <= |l'| && l'[..|l|] == l
    ensures ClonedIfPossible(l', m)
  {
    assert forall i | 0 <= i <= m :: l'[i] == l'[..|l|][i];
  }

  lemma DonorsOf(l: seq<Job>, l': seq<Job>, prompt: seq<Token>, donor: int)
    requires |l'| == |l| + 1 && l'[..|l|] == l && l'[|l|].history == prompt
    requires l'[|l|].needsPrefill <==> donor < 0
    requires if donor >= 0 then |prompt| > 1 && IsDonor(l, prompt, donor) else |prompt| <= 1 || NoDonor(l, prompt, |l|)
    ensures ClonedIfPossible(l', |l|)
  {
    assert forall i | 0 <= i < |l| :: l'[i] == l'[..|l|][i];
  }

  /** With a token budget, a request that succeeded delivered exactly what the engine's classic loop delivers for it. */
  lemma SettledIsClassic(k: Ledger, id: nat)
    requires Settled(k, id) && k.done[id].Succeeded? && k.subs[id].gen.maxTokens >= 1
    ensures k.delivered[id] == ClassicFrom(k.subs[id].gen, k.subs[id].prompt, [], k.subs[id].rng)
  {
    ServedAgreesExactly(k.subs[id].gen, k.subs[id].prompt, k.subs[id].rng);
  }

  // ---- The scheduler ----

  class Scheduler {
    const backend: MultiBackend
    const nParallel: nat
    var pending: seq<Job>
    var active: seq<Job>
    var slotUsed: seq<bool>
    var done: map<nat, Status>
    var nextId: nat
    /** Every token handed to the callback of each request, in order. */
    var delivered: map<nat, seq<Token>>
    ghost var subs: map<nat, Submission>

    ghost function Book(): Ledger
      reads this`subs, this`delivered, this`done
    {
      Ledger(subs, delivered, done)
    }

    /** The invariant, with `l` as the live requests. */
    ghost predicate Live(l: seq<Job>)
      reads this`subs, this`delivered, this`done, this`slotUsed, this`pending, this`nextId, backend
    {
      && 1 <= nParallel == |slotUsed| == |backend.seqs| && |l| <= nParallel
      && SlotsMatch(slotUsed, backend.seqs, l)
      && Books(backend.net, Book(), pending, nextId, l)
    }

    ghost predicate Valid()
      reads this, backend
    {
      Live(active) && AllCached(backend.seqs, active)
    }

    /** Live requests have distinct ids, all on the books. */
    lemma LiveFacts(l: seq<Job>)
      requires Live(l)
      ensures Distinct(l) && forall x | 0 <= x < |l| :: l[x].id in Book().delivered
    {
      hide Partition, OnTrack;
      assert forall x | 0 <= x < |l| :: Tracked(backend.net, Book(), l[x]);
    }

    constructor (b: MultiBackend, n: nat)
      requires 1 <= n && b.seqs == seq(n, i => [])
      ensures Valid() && backend == b && nParallel == n && pending == [] && active == []
    {
      backend, nParallel := b, n;
      pending, active := [], [];
      slotUsed := seq(n, i => false);
      done, delivered, subs := map[], map[], map[];
      nextId := 1;
    }

    /** Queues a request; an empty or oversized prompt is refused. */
    method Submit(prompt: seq<Token>, gen: Request, rng: Rng) returns (ok: bool, id: nat)
      requires Valid() && gen.net == backend.net
      modifies this`pending, this`nextId, this`delivered, this`subs
      ensures Valid() && Extends(old(Book()), Book())
      ensures ok <==> 0 < |prompt| <= gen.net.nCtx
      ensures ok ==> id !in old(subs) && subs == old(subs)[id := Submission(gen, prompt, rng)]
      ensures ok ==> && |pending| == |old(pending)| + 1 && pending[..|old(pending)|] == old(pending)
                     && pending[|old(pending)|].id == id && pending[|old(pending)|].history == prompt
      ensures !ok ==> subs == old(subs) && pending == old(pending)
    {
      hide Partition, AllTracked, Extends, SlotsMatch;
      id := 0;
      ghost var k := Book();
      if prompt == [] || |prompt| > backend.net.nCtx {
        ExtendsRefl(k);
        return false, id;
      }
      SubmitBooks(backend.net, k, pending, nextId, active, Submission(gen, prompt, rng));
      id := nextId;
      nextId := nextId + 1;
      pending := pending + [Job(id, gen, prompt, |prompt|, rng, 0, -1, 0, true)];
      delivered := delivered[id := []];
      subs := subs[id := Submission(gen, prompt, rng)];
      assert Book() == Opened(k, id, Submission(gen, prompt, rng));
      ok := true;
    }

    /** Releases a request's slot and records how it ended. */
    method Finish(j: Job, st: Status)
      requires |slotUsed| == |backend.seqs| && j.slot < |slotUsed|
      modifies this`slotUsed, this`done, backend`seqs
      ensures done == old(done)[j.id := st]
      ensures 0 <= j.slot ==>
                slotUsed == old(slotUsed)[j.slot := false] && backend.seqs == old(backend.seqs)[j.slot := []]
    {
      if j.slot >= 0 {
        backend.ClearSeq(j.slot);
        slotUsed := slotUsed[j.slot := false];
      }
      done := done[j.id := st];
    }

    /** Samples one token for a request whose whole history was just decoded. It stays live with that token delivered,
        or settles; its sampling or its callback may throw if it is among `faults`, and that fails it alone. */
    method SampleOne(still: seq<Job>, j: Job, rest: seq<Job>, logits: Logits, faults: set<nat>)
      returns (still': seq<Job>)
      requires Live(still + [j] + rest) && 0 <= j.slot < |backend.seqs|
      requires backend.seqs[j.slot] == j.history && logits == backend.net.logits(j.history)
      modifies this`slotUsed, this`done, this`delivered, backend`seqs
      ensures Live(still' + rest) && Extends(old(Book()), Book()) && OnlyFaulty(old(Book()), Book(), faults)
      ensures ServedOne(old(Book()), Book(), j.id)
      ensures |backend.seqs| == |old(backend.seqs)|
      ensures forall t | 0 <= t < |backend.seqs| && t != j.slot :: backend.seqs[t] == old(backend.seqs)[t]
      ensures still' == still || exists j' :: still' == still + [j'] && Cached(backend.seqs, j') && j'.slot == j.slot
                                            && Budget(j') < Budget(j)
    {
      hide Partition, AllTracked, Extends, SlotsMatch, OnTrack, SoloRun;
      still' := still;
      ghost var k, net := Book(), backend.net;
      AllTrackedSplit(net, k, pending, still, j, rest);
      ghost var s := subs[j.id];
      ReturnSlot(slotUsed, backend.seqs, still, j, rest);
      ServeStep(net, s, delivered[j.id], j);
      var samplingFault: bool := *;
      if samplingFault && j.id in faults {
        Finish(j, Failed);
        FinishBooks(net, k, pending, nextId, still, j, rest, k.delivered[j.id], Failed);
        assert delivered[j.id := delivered[j.id]] == delivered;
        return;
      }
      var (t, rng) := Sample(j.gen.sampler, j.rng, logits, j.history);
      if backend.net.eog(t) {
        Finish(j, Succeeded);
        FinishBooks(net, k, pending, nextId, still, j, rest, k.delivered[j.id], Succeeded);
        assert delivered[j.id := delivered[j.id]] == delivered;
        return;
      }
      var out := delivered[j.id] + [t];
      delivered := delivered[j.id := out];
      var callbackFault: bool := *;
      if callbackFault && j.id in faults {
        Finish(j, Failed);
        FinishBooks(net, k, pending, nextId, still, j, rest, out, Failed);
        return;
      }
      var j' := Served(j, t, rng);
      if Spent(j', out) {
        Finish(j', Succeeded);
        FinishBooks(net, k, pending, nextId, still, j, rest, out, Succeeded);
        return;
      }
      still' := still + [j'];
      KeepSlot(slotUsed, backend.seqs, still, j, j', rest);
      AdvanceBooks(net, k, pending, nextId, still, j, j', rest, out);
      assert j'.history[..j'.nPast] == j.history;
    }

    /** Samples for the first of the requests still to do. */
    method SampleNext(still: seq<Job>, todo: seq<Job>, logits: Logits, faults: set<nat>) returns (next: seq<Job>)
      requires todo != [] && Live(still + todo) && logits == backend.net.logits(todo[0].history)
      requires AllCached(backend.seqs, still) && AllDecoded(backend.seqs, todo)
      modifies this`slotUsed, this`done, this`delivered, backend`seqs
      ensures Live(next + todo[1..]) && Extends(old(Book()), Book()) && OnlyFaulty(old(Book()), Book(), faults)
      ensures ServedOne(old(Book()), Book(), todo[0].id)
      ensures AllCached(backend.seqs, next) && AllDecoded(backend.seqs, todo[1..])
      ensures Work(next) + Work(todo[1..]) + 1 <= Work(still) + Work(todo)
    {
      hide Books, SlotsMatch, Work, Extends, OnlyFaulty, ServedOne, Budget, Cached, Decoded, AllCached, AllDecoded;
      var j, rest := todo[0], todo[1..];
      SampleSetup(still, todo, j, rest, backend.seqs);
      BooksFacts(backend.net, Book(), pending, nextId, still, j, rest);
      ghost var before := backend.seqs;
      next := SampleOne(still, j, rest, logits, faults);
      OthersUntouched(still, j, rest, before, backend.seqs);
      KeptCached(still, next, backend.seqs);
      WorkOfNext(still, j, rest, next);
    }

    /** Samples one token for each of the live requests, all just decoded, in order. */
    method SampleAll(jobs: seq<Job>, logits: seq<Logits>, faults: set<nat>) returns (still: seq<Job>)
      requires Live(jobs) && |logits| == |jobs| && AllDecoded(backend.seqs, jobs)
      requires forall i | 0 <= i < |jobs| :: logits[i] == backend.net.logits(jobs[i].history)
      modifies this`slotUsed, this`done, this`delivered, backend`seqs
      ensures Live(still) && AllCached(backend.seqs, still)
      ensures Extends(old(Book()), Book()) && OnlyFaulty(old(Book()), Book(), faults)
      ensures ServedSoFar(old(Book()), Book(), jobs, |jobs|)
      ensures Work(still) + |jobs| <= Work(jobs)
    {
      hide *;
      still := [];
      var todo := jobs;
      ghost var k := Book();
      SampleStart(jobs, backend.seqs, k);
      ServedNone(k, jobs);
      LiveFacts(jobs);
      var i := 0;
      while i < |jobs|
        invariant i + |todo| == |jobs| && todo == jobs[i..]
        invariant Live(still + todo) && Extends(k, Book()) && OnlyFaulty(k, Book(), faults)
        invariant AllCached(backend.seqs, still) && AllDecoded(backend.seqs, todo)
        invariant ServedSoFar(k, Book(), jobs, i)
        invariant Work(still) + Work(todo) + i <= Work(jobs)
      {
        ghost var k1 := Book();
        var next := SampleNext(still, todo, logits[i], faults);
        ExtendsTrans(k, k1, Book());
        OnlyFaultyTrans(k, k1, Book(), faults);
        assert todo[0] == jobs[i];
        ServedNext(k, k1, Book(), jobs, i);
        still, todo, i := next, todo[1..], i + 1;
      }
      assert still + todo == still;
      assert todo == [];
      SampleStart([], backend.seqs, k);
    }

    /** The whole batch failed: everything in flight fails with it. */
    method FailAll()
      requires Live(active)
      modifies this`active, this`slotUsed, this`done, backend`seqs
      ensures Valid() && active == [] && Extends(old(Book()), Book())
      ensures delivered == old(delivered)
      ensures forall x | 0 <= x < |old(active)| ::
                old(active)[x].id in delivered && old(active)[x].id in done && done[old(active)[x].id] == Failed
    {
      hide Books, SlotsMatch;
      ghost var k, net := Book(), backend.net;
      ExtendsRefl(k);
      assert active[0..] == active;
      for i := 0 to |active|
        invariant active == old(active) && delivered == old(delivered)
        invariant forall x | 0 <= x < i ::
                    active[x].id in delivered && active[x].id in done && done[active[x].id] == Failed
        invariant Live(active[i..]) && Extends(k, Book())
      {
        var j := active[i];
        ghost var rest := active[i + 1..];
        assert active[i..] == [] + [j] + rest && [] + rest == rest;
        ReturnSlot(slotUsed, backend.seqs, [], j, rest);
        ghost var k1 := Book();
        FailBooks(net, k1, pending, nextId, [], j, rest);
        Finish(j, Failed);
        assert Book() == Closed(k1, j.id, k1.delivered[j.id], Failed) by {
          assert k1.delivered[j.id := k1.delivered[j.id]] == k1.delivered;
        }
        ExtendsTrans(k, k1, Book());
      }
      active := [];
    }

    /** The first active request with this very prompt, or -1. */
    method FindDonor(prompt: seq<Token>) returns (d: int)
      requires forall i | 0 <= i < |active| :: active[i].promptLen <= |active[i].history|
      ensures -1 <= d < |active|
      ensures if d >= 0 then IsDonor(active, prompt, d) else NoDonor(active, prompt, |active|)
    {
      for i := 0 to |active|
        invariant NoDonor(active, prompt, i)
      {
        if active[i].promptLen == |prompt| && active[i].history[..|prompt|] == prompt { return i; }
      }
      d := -1;
    }

    /** The lowest free slot; it belongs to no live request and holds nothing. */
    method FirstFree() returns (t: nat)
      requires SlotsMatch(slotUsed, backend.seqs, active) && |active| < |slotUsed|
      ensures t < |slotUsed| && !slotUsed[t] && forall x | 0 <= x < t :: slotUsed[x]
      ensures t !in Slots(active) && backend.seqs[t] == []
    {
      FreeSlot(slotUsed, backend.seqs, active);
      t := 0;
      while slotUsed[t]
        invariant t < |slotUsed| && forall x | 0 <= x < t :: slotUsed[x]
        decreases |slotUsed| - t
      {
        t := t + 1;
      }
    }

    /** Moves the oldest waiting request into a free slot, cloning the donor's prompt KV if there is one. */
    method AdmitOne(donor: int)
      requires Valid() && pending != [] && |active| < nParallel && -1 <= donor < |active|
      requires donor >= 0 ==> && |pending[0].history| > 1 && active[donor].nPast >= active[donor].promptLen
                              && active[donor].promptLen == |pending[0].history| <= |active[donor].history|
                              && active[donor].history[..|pending[0].history|] == pending[0].history
      modifies this`pending, this`active, this`slotUsed, backend`seqs
      ensures Valid() && pending == old(pending)[1..] && |active| == |old(active)| + 1
      ensures active[..|old(active)|] == old(active) && active[|old(active)|].id == old(pending)[0].id
      ensures active[|old(active)|].history == old(pending)[0].history
      ensures active[|old(active)|].needsPrefill <==> donor < 0
      ensures Work(pending) + Work(active) == old(Work(pending) + Work(active))
    {
      hide Books, SlotsMatch, Work, Slots, Budget;
      var t := FirstFree();
      WaitingFacts(backend.net, Book(), pending, nextId, active);
      var j := pending[0].(slot := t);
      ghost var before := backend.seqs;
      if donor >= 0 {
        var shared := j.promptLen - 1;
        backend.CopySeq(active[donor].slot, t, shared);
        j := j.(nPast := shared, needsPrefill := false);
        assert backend.seqs[t] == j.history[..shared];
      }
      AdmitBooks(backend.net, Book(), pending, nextId, active, j);
      TakeSlot(slotUsed, before, active, j, backend.seqs[t]);
      assert before[t := backend.seqs[t]] == backend.seqs;
      NewcomerAlone(active, j, slotUsed, before, backend.seqs);
      AdmitWork(pending, active, j);
      slotUsed := slotUsed[t := true];
      pending := pending[1..];
      active := active + [j];
    }

    /** Admits the oldest waiting request unless it is held back. */
    method AdmitNext() returns (blocked: bool)
      requires Valid() && pending != [] && |active| < nParallel
      modifies this`pending, this`active, this`slotUsed, backend`seqs
      ensures Valid() && (blocked <==> Held(backend.net.nCtx, old(active), old(pending)[0].history))
      ensures blocked ==> pending == old(pending) && active == old(active) != []
      ensures !blocked ==> pending == old(pending)[1..] && |active| == |old(active)| + 1
      ensures !blocked ==> active[..|old(active)|] == old(active) && active[|old(active)|].id == old(pending)[0].id
      ensures !blocked ==> active[|old(active)|].history == old(pending)[0].history
      ensures !blocked ==> ClonedIfPossible(active, |old(active)|) && Cells(active) <= backend.net.nCtx
      ensures Work(pending) + Work(active) == old(Work(pending) + Work(active))
    {
      hide Books, SlotsMatch, Work, AllCached, Slots;
      WaitingFacts(backend.net, Book(), pending, nextId, active);
      var prompt := pending[0].history;
      if Cells(active) + |prompt| > backend.net.nCtx { return true; }
      var donor := -1;
      if |prompt| > 1 { donor := FindDonor(prompt); }
      if donor >= 0 && active[donor].nPast < active[donor].promptLen { return true; }
      ghost var was := active;
      AdmitOne(donor);
      CellsSnoc(active);
      DonorsOf(was, active, prompt, donor);
      blocked := false;
    }

    /** Moves waiting requests into free slots, oldest first, until none waits, no slot is free, or the oldest is
        held back. A newcomer whose prompt is already in flight is cloned. With anything waiting, something is
        live afterwards. */
    method Admit() returns (n: nat)
      requires Valid()
      modifies this`pending, this`active, this`slotUsed, backend`seqs
      ensures Valid() && n <= |old(pending)| && pending == old(pending)[n..] && |active| == |old(active)| + n
      ensures active[..|old(active)|] == old(active)
      ensures SameRequests(active[|old(active)|..], old(pending)[..n])
      ensures forall m | |old(active)| <= m < |active| :: ClonedIfPossible(active, m)
      ensures |active| <= nParallel && (n > 0 ==> Cells(active) <= backend.net.nCtx)
      ensures pending == [] || |active| >= nParallel || Held(backend.net.nCtx, active, pending[0].history)
      ensures active == [] ==> pending == []
      ensures Work(pending) + Work(active) == old(Work(pending) + Work(active))
    {
      hide Books, SlotsMatch, Work, AllCached, Cells, Held, ClonedIfPossible, SameRequests;
      NoRequests(active, pending);
      n := 0;
      var blocked := false;
      while !blocked && pending != [] && |active| < nParallel
        invariant Valid() && n <= |old(pending)| && pending == old(pending)[n..] && |active| == |old(active)| + n
        invariant active[..|old(active)|] == old(active)
        invariant SameRequests(active[|old(active)|..], old(pending)[..n])
        invariant forall m | |old(active)| <= m < |active| :: ClonedIfPossible(active, m)
        invariant n > 0 ==> Cells(active) <= backend.net.nCtx
        invariant blocked ==> active != [] && pending != [] && Held(backend.net.nCtx, active, pending[0].history)
        invariant Work(pending) + Work(active) == old(Work(pending) + Work(active))
        decreases |pending|, !blocked
      {
        ghost var was := active;
        blocked := AdmitNext();
        if !blocked {
          OneMoreRequest(was[|old(active)|..], old(pending)[..n], active[|was|], old(pending)[n]);
          assert active[|old(active)|..] == was[|old(active)|..] + [active[|was|]];
          assert old(pending)[..n + 1] == old(pending)[..n] + [old(pending)[n]];
          n := n + 1;
          forall m | |old(active)| <= m < |was| ensures ClonedIfPossible(active, m) {
            ClonedStays(was, active, m);
          }
        }
      }
    }

    /** One slice per live request: the whole prompt when prefilling, otherwise the newest token. */
    method BuildSlices() returns (slices: seq<Slice>)
      requires AllCached(backend.seqs, active) && Distinct(active)
      requires forall i | 0 <= i < |active| :: active[i].history != []
      ensures |slices| == |active| && DistinctSlices(slices)
      ensures forall i | 0 <= i < |active| ::
                && slices[i].slot == active[i].slot && 0 <= slices[i].slot < |backend.seqs|
                && slices[i].pos == |backend.seqs[slices[i].slot]|
                && backend.seqs[slices[i].slot] + slices[i].tokens == active[i].history
    {
      slices := [];
      for i := 0 to |active|
        invariant |slices| == i
        invariant forall x | 0 <= x < i ::
                && slices[x].slot == active[x].slot && 0 <= slices[x].slot < |backend.seqs|
                && slices[x].pos == |backend.seqs[slices[x].slot]|
                && backend.seqs[slices[x].slot] + slices[x].tokens == active[x].history
      {
        var r := active[i];
        assert Cached(backend.seqs, r);
        var s := if r.needsPrefill then Slice(r.slot, r.history, 0)
            else Slice(r.slot, [r.history[|r.history| - 1]], r.nPast);
        assert backend.seqs[s.slot] + s.tokens == r.history;
        slices := slices + [s];
      }
    }

    /** Tokens all waiting and live requests may still deliver. */
    ghost function Remaining(): nat
      reads this`pending, this`active
    {
      Work(pending) + Work(active)
    }

    /** Admits, advances every live request by one batched pass, and retires the finished ones. `live` are the
        requests in flight once admission is over: those that were, and the oldest waiting ones. Whoever then heads
        the queue was stopped by a full house, by the KV budget, or by a live request with its very prompt that is
        still prefilling. Every live request ends the step with one more token, or done; unless the batch failed, one
        that failed is among `faults`, those whose sampling or callback may throw. */
    method Step(faults: set<nat>) returns (more: bool, failed: bool, ghost live: seq<Job>)
      requires Valid()
      modifies this`pending, this`active, this`slotUsed, this`done, this`delivered, backend
      ensures Valid() && Extends(old(Book()), Book())
      ensures |live| >= |old(active)| && live[..|old(active)|] == old(active)
      ensures |live| - |old(active)| <= |old(pending)| && pending == old(pending)[|live| - |old(active)|..]
      ensures SameRequests(live[|old(active)|..], old(pending)[..|live| - |old(active)|])
      ensures |live| <= nParallel && (|live| > |old(active)| ==> Cells(live) <= backend.net.nCtx)
      ensures forall m | |old(active)| <= m < |live| :: ClonedIfPossible(live, m)
      ensures pending != [] ==>
                || |live| >= nParallel
                || Cells(live) + |pending[0].history| > backend.net.nCtx
                || exists d | 0 <= d < |live| ::
                     && 1 < live[d].promptLen == |pending[0].history| <= |live[d].history|
                     && live[d].history[..live[d].promptLen] == pending[0].history && live[d].nPast < live[d].promptLen
      ensures forall x | 0 <= x < |live| ::
                && live[x].id in old(delivered) && live[x].id in delivered
                && |delivered[live[x].id]| <= |old(delivered)[live[x].id]| + 1
                && (live[x].id in done || |delivered[live[x].id]| == |old(delivered)[live[x].id]| + 1)
      ensures failed <==> backend.failures > old(backend.failures)
      ensures failed ==> forall x | 0 <= x < |live| :: live[x].id in done && done[live[x].id] == Failed
      ensures (backend.reliable ==> !failed) && (!failed ==> OnlyFaulty(old(Book()), Book(), faults))
      ensures more <==> pending != [] || active != []
      ensures more ==> Remaining() < old(Remaining())
    {
      hide Valid, Live, Work, Extends, OnlyFaulty, Held, Cells, ClonedIfPossible, SameRequests;
      SampleStart([], backend.seqs, Book());
      var n := Admit();
      live := active;
      if pending != [] && |live| < nParallel { HeldBecause(backend.net.nCtx, live, pending[0].history); }
      if active == [] { return pending != [], false, live; }
      failed := ServeLive(faults, live);
      more := active != [] || pending != [];
    }

    /** Advances every live request by one batched pass and retires the finished ones. */
    method ServeLive(faults: set<nat>, ghost live: seq<Job>) returns (failed: bool)
      requires Valid() && active == live != []
      modifies this`active, this`slotUsed, this`done, this`delivered, backend
      ensures Valid() && Extends(old(Book()), Book())
      ensures forall x | 0 <= x < |live| ::
                && live[x].id in old(delivered) && live[x].id in delivered
                && |delivered[live[x].id]| <= |old(delivered)[live[x].id]| + 1
                && (live[x].id in done
                     || |delivered[live[x].id]| == |old(delivered)[live[x].id]| + 1)
      ensures failed <==> backend.failures > old(backend.failures)
      ensures failed ==> forall x | 0 <= x < |live| ::
                           live[x].id in done && done[live[x].id] == Failed
      ensures (backend.reliable ==> !failed) && (!failed ==> OnlyFaulty(old(Book()), Book(), faults))
      ensures Work(active) < old(Work(active))
    {
      hide Books, SlotsMatch, Work, Extends, OnlyFaulty, AllCached, AllDecoded, Distinct, ServedSoFar;
      ghost var k := Book();
      WaitingFacts(backend.net, k, pending, nextId, live);
      SlotsDistinct(slotUsed, backend.seqs, live);
      SampleStart([], backend.seqs, k);
      WorkPositive(live);
      var slices := BuildSlices();
      ghost var before := backend.seqs;
      var ok, logits := backend.DecodeSeqs(slices);
      AfterDecode(slotUsed, before, backend.seqs, live, slices);
      failed := !ok;
      if failed {
        FailAll();
      } else {
        DecodedAll(backend.seqs, live, slices, before);
        active := SampleAll(active, logits, faults);
        ServedAll(k, Book(), live);
      }
    }

    /** Steps until nothing is waiting or live. Unless a batch failed, every request that was not done before and is
        not among `faults` has then delivered its whole solo run. */
    method RunUntilIdle(faults: set<nat>) returns (failed: bool)
      requires Valid()
      modifies this`pending, this`active, this`slotUsed, this`done, this`delivered, backend
      ensures Valid() && Extends(old(Book()), Book()) && pending == [] && active == []
      ensures done.Keys == subs.Keys == delivered.Keys && (backend.reliable ==> !failed)
      ensures !failed ==> forall id | id in subs && id !in old(done) && id !in faults ::
                            done[id].Succeeded? && delivered[id] == SoloRun(subs[id])
    {
      hide Extends, AllCached, Books, SlotsMatch, Work, SoloRun;
      var more := true;
      failed := false;
      ghost var k := Book();
      SampleStart([], backend.seqs, k);
      while more
        invariant Valid() && Extends(k, Book())
        invariant (backend.reliable ==> !failed) && (!failed ==> OnlyFaulty(k, Book(), faults))
        invariant more || (pending == [] && active == [])
        decreases Remaining(), more
      {
        ghost var k1 := Book();
        var broken;
        ghost var live;
        more, broken, live := Step(faults);
        failed := failed || broken;
        ExtendsTrans(k, k1, Book());
        if !failed { OnlyFaultyTrans(k, k1, Book(), faults); }
      }
      IdleBooks(backend.net, Book(), nextId);
    }
  }

  /** With nothing waiting or live, every submission is done and settled. */
  lemma IdleBooks(net: Network, k: Ledger, nextId: nat)
    requires Books(net, k, [], nextId, [])
    ensures k.done.Keys == k.subs.Keys == k.delivered.Keys
    ensures forall id | id in k.done && k.done[id].Succeeded? :: k.delivered[id] == SoloRun(k.subs[id])
  {
    hide SoloRun, Tracked, Waiting;
    assert Ids([]) == {};
    assert forall id | id in k.done :: Settled(k, id);
  }

  lemma HeldBecause(nCtx: nat, l: seq<Job>, prompt: seq<Token>)
    requires Held(nCtx, l, prompt)
    ensures || Cells(l) + |prompt| > nCtx
            || exists d | 0 <= d < |l| ::
                 && 1 < l[d].promptLen == |prompt| <= |l[d].history|
                 && l[d].history[..l[d].promptLen] == prompt && l[d].nPast < l[d].promptLen
  {
  }

  lemma ServedAll(k: Ledger, k': Ledger, jobs: seq<Job>)
    requires ServedSoFar(k, k', jobs, |jobs|)
    ensures forall x | 0 <= x < |jobs| ::
              && jobs[x].id in k.delivered && jobs[x].id in k'.delivered
              && |k'.delivered[jobs[x].id]| <= |k.delivered[jobs[x].id]| + 1
              && (jobs[x].id in k'.done || |k'.delivered[jobs[x].id]| == |k.delivered[jobs[x].id]| + 1)
  {
    assert forall x | 0 <= x < |jobs| :: Advanced(k, k', jobs[x].id);
  }

  /** The cells in use are the tokens of all live requests together. */
  lemma {:induction false} CellsOfAll(a: seq<Job>, b: seq<Job>)
    ensures Cells(a + b) == Cells(a) + Cells(b) && (|b| == 1 ==> Cells(b) == |b[0].history|)
  {
    if b == [] {
      assert a + b == a;
    } else {
      var m := b[..|b| - 1];
      assert (a + b)[..|a + b| - 1] == a + m;
      CellsOfAll(a, m);
    }
  }

  lemma CellsSnoc(l: seq<Job>)
    requires l != []
    ensures Cells(l) == Cells(l[..|l| - 1]) + |l[|l| - 1].history|
  {
  }

  lemma SlotsDistinct(used: seq<bool>, seqs: seq<seq<Token>>, l: seq<Job>)
    requires SlotsMatch(used, seqs, l)
    ensures Distinct(l)
  {
  }

  lemma WorkPositive(l: seq<Job>)
    requires l != [] && forall i | 0 <= i < |l| :: Budget(l[i]) > 0
    ensures Work(l) > 0
  {
  }

  /** A batched pass, failed or not, writes only the slots of live requests. */
  lemma AfterDecode(used: seq<bool>, seqs: seq<seq<Token>>, seqs': seq<seq<Token>>, l: seq<Job>, slices: seq<Slice>)
    requires SlotsMatch(used, seqs, l) && |slices| == |l| && |seqs'| == |seqs|
    requires forall i | 0 <= i < |l| :: slices[i].slot == l[i].slot
    requires forall t | 0 <= t < |seqs'| && (forall i | 0 <= i < |slices| :: slices[i].slot != t) :: seqs'[t] == seqs[t]
    ensures SlotsMatch(used, seqs', l)
  {
    forall t | 0 <= t < |used| && !used[t] ensures seqs'[t] == [] {
      assert t !in Slots(l);
      forall i | 0 <= i < |slices| ensures slices[i].slot != t {
        assert l[i].slot in Slots(l);
      }
    }
  }

  lemma DecodedAll(seqs': seq<seq<Token>>, l: seq<Job>, slices: seq<Slice>, seqs: seq<seq<Token>>)
    requires |slices| == |l| && |seqs'| == |seqs|
    requires forall i | 0 <= i < |l| :: slices[i].slot == l[i].slot && 0 <= slices[i].slot < |seqs|
    requires forall i | 0 <= i < |l| :: seqs[slices[i].slot] + slices[i].tokens == l[i].history
    requires forall i | 0 <= i < |slices| :: seqs'[slices[i].slot] == seqs[slices[i].slot] + slices[i].tokens
    ensures AllDecoded(seqs', l)
  {
    forall i | 0 <= i < |l| ensures Decoded(seqs', l[i]) {
      assert seqs'[slices[i].slot] == l[i].history;
    }
  }

  /** The backend holds the whole history of the request. */
  ghost predicate Decoded(seqs: seq<seq<Token>>, j: Job) {
    0 <= j.slot < |seqs| && seqs[j.slot] == j.history
  }

  lemma FailBooks(net: Network, k: Ledger, pending: seq<Job>, nextId: nat, a: seq<Job>, j: Job, b: seq<Job>)
    requires Books(net, k, pending, nextId, a + [j] + b)
    ensures j.id in k.delivered
    ensures var k' := Closed(k, j.id, k.delivered[j.id], Failed);
            Books(net, k', pending, nextId, a + b) && Extends(k, k')
  {
    AllTrackedSplit(net, k, pending, a, j, b);
    ServeStep(net, k.subs[j.id], k.delivered[j.id], j);
    FinishBooks(net, k, pending, nextId, a, j, b, k.delivered[j.id], Failed);
  }

  /** A waiting request has delivered nothing and holds no slot. */
  lemma WaitingFacts(net: Network, k: Ledger, pending: seq<Job>, nextId: nat, l: seq<Job>)
    requires Books(net, k, pending, nextId, l)
    ensures forall i | 0 <= i < |pending| ::
              var w := pending[i];
              w.slot == -1 && w.nPast == 0 && w.needsPrefill && 0 < |w.history| == w.promptLen <= net.nCtx
    ensures forall i | 0 <= i < |l| :: 0 < l[i].promptLen <= |l[i].history| && Budget(l[i]) > 0
  {
    forall i | 0 <= i < |pending| ensures Waiting(net, k, pending[i]) {
    }
    forall i | 0 <= i < |l| ensures Tracked(net, k, l[i]) {
    }
  }

  /** Writing a free slot leaves every live request's sequence alone. */
  lemma NewcomerAlone(l: seq<Job>, j: Job, used: seq<bool>, seqs: seq<seq<Token>>, seqs': seq<seq<Token>>)
    requires SlotsMatch(used, seqs, l) && 0 <= j.slot < |used| && !used[j.slot]
    requires |seqs'| == |seqs| && seqs' == seqs[j.slot := seqs'[j.slot]]
    ensures AllCached(seqs, l) ==> AllCached(seqs', l)
  {
    assert forall x | 0 <= x < |l| :: l[x].slot in Slots(l);
  }

  lemma AdmitWork(pending: seq<Job>, l: seq<Job>, j: Job)
    requires pending != [] && j.gen == pending[0].gen && j.emitted == pending[0].emitted
    ensures Work(pending[1..]) + Work(l + [j]) == Work(pending) + Work(l)
  {
    assert pending == [pending[0]] + pending[1..];
    WorkConcat([pending[0]], pending[1..]);
    assert [pending[0]][..0] == [];
    assert (l + [j])[..|l|] == l;
  }

  lemma BooksFacts(net: Network, k: Ledger, pending: seq<Job>, nextId: nat, a: seq<Job>, j: Job, b: seq<Job>)
    requires Books(net, k, pending, nextId, a + [j] + b)
    ensures Distinct(a + [j] + b) && Budget(j) > 0
  {
    AllTrackedSplit(net, k, pending, a, j, b);
  }

  /** Writing one request's slot leaves every other request's sequence alone. */
  lemma OthersUntouched(a: seq<Job>, j: Job, b: seq<Job>, seqs: seq<seq<Token>>, seqs': seq<seq<Token>>)
    requires Distinct(a + [j] + b) && |seqs| == |seqs'|
    requires forall t | 0 <= t < |seqs| && t != j.slot :: seqs'[t] == seqs[t]
    ensures AllCached(seqs, a) ==> AllCached(seqs', a)
    ensures AllDecoded(seqs, b) ==> AllDecoded(seqs', b)
  {
    var l := a + [j] + b;
    assert l[|a|] == j;
    forall x | 0 <= x < |a| ensures a[x].slot != j.slot {
      assert a[x] == l[x];
    }
    forall x | 0 <= x < |b| ensures b[x].slot != j.slot {
      assert b[x] == l[|a| + 1 + x];
    }
    hide Distinct;
  }

  ghost predicate AllCached(seqs: seq<seq<Token>>, l: seq<Job>) {
    forall x | 0 <= x < |l| :: Cached(seqs, l[x])
  }

  ghost predicate AllDecoded(seqs: seq<seq<Token>>, l: seq<Job>) {
    forall x | 0 <= x < |l| :: Decoded(seqs, l[x])
  }

  lemma SampleSetup(still: seq<Job>, todo: seq<Job>, j: Job, rest: seq<Job>, seqs: seq<seq<Token>>)
    requires todo != [] && j == todo[0] && rest == todo[1..] && AllDecoded(seqs, todo)
    ensures todo == [j] + rest && still + todo == still + [j] + rest
    ensures Decoded(seqs, j) && AllDecoded(seqs, rest)
    ensures 0 <= j.slot < |seqs| && seqs[j.slot] == j.history
  {
  }

  lemma SampleStart(jobs: seq<Job>, seqs: seq<seq<Token>>, k: Ledger)
    ensures AllCached(seqs, []) && Extends(k, k) && (forall faults: set<nat> :: OnlyFaulty(k, k, faults))
              && Work([]) == 0 && [] + jobs == jobs
  {
  }

  lemma KeptCached(still: seq<Job>, next: seq<Job>, seqs: seq<seq<Token>>)
    requires AllCached(seqs, still)
    requires next == still || exists j' :: next == still + [j'] && Cached(seqs, j')
    ensures AllCached(seqs, next)
  {
  }

  lemma WorkOfNext(still: seq<Job>, j: Job, rest: seq<Job>, next: seq<Job>)
    requires Budget(j) > 0
    requires next == still || exists j' :: next == still + [j'] && Budget(j') < Budget(j)
    ensures Work(next) + Work(rest) + 1 <= Work(still) + Work([j] + rest)
  {
    WorkConcat([j], rest);
    assert Work([j]) == Budget(j) by { assert [j][..0] == []; }
    if next != still {
      var j' :| next == still + [j'] && Budget(j') < Budget(j);
      assert next[..|next| - 1] == still;
    }
  }
}
