/** How many tokens the next speculative round drafts, and when speculation is given up. */
module DraftPolicy {

  datatype Config = Config(minDraft: int, maxDraft: int, disableAfter: nat, disableBelow: real)

  ghost predicate ValidConfig(c: Config) {
    1 <= c.minDraft <= c.maxDraft
  }

  /** The decoder's adaptive state: current draft length, lifetime counters, and the on/off switch. */
  datatype Policy = Policy(length: int, drafted: nat, accepted: nat, active: bool)

  ghost predicate ValidPolicy(c: Config, s: Policy) {
    c.minDraft <= s.length <= c.maxDraft
  }

  /** Two more after a round that accepted nine tenths, two fewer after one that accepted four tenths or less. */
  function AdaptLength(c: Config, length: int, accepted: nat, drafted: nat): int {
    if drafted == 0 then length
    else
      var rate := accepted as real / drafted as real;
      if rate >= 0.9 then (if length + 2 < c.maxDraft then length + 2 else c.maxDraft)
      else if rate <= 0.4 then (if length - 2 > c.minDraft then length - 2 else c.minDraft)
      else length
  }

  function AcceptanceRate(accepted: nat, drafted: nat): real {
    if drafted == 0 then 0.0 else accepted as real / drafted as real
  }

  /** Whether speculation is still on once `accepted` of `drafted` tokens were kept over the decoder's life. */
  predicate StaysActive(c: Config, active: bool, accepted: nat, drafted: nat) {
    active && (drafted < c.disableAfter || AcceptanceRate(accepted, drafted) >= c.disableBelow)
  }

  /** The state after a round that drafted `n` tokens and accepted `acc` of them. */
  function AfterRound(c: Config, s: Policy, n: nat, acc: nat): Policy {
    Policy(AdaptLength(c, s.length, acc, n), s.drafted + n, s.accepted + acc,
           StaysActive(c, s.active, s.accepted + acc, s.drafted + n))
  }

  /** The state after a round of which emission stopped the generation: the tokens are counted, and nothing
      is adapted. */
  function Settle(c: Config, s: Policy, n: nat, acc: nat, stopped: bool): Policy {
    if stopped then s.(drafted := s.drafted + n, accepted := s.accepted + acc) else AfterRound(c, s, n, acc)
  }

  /** Rounds keep the draft length within its bounds and never switch speculation back on. */
  lemma AfterRoundValid(c: Config, s: Policy, n: nat, acc: nat)
    requires ValidConfig(c) && ValidPolicy(c, s)
    ensures ValidPolicy(c, AfterRound(c, s, n, acc))
    ensures !s.active ==> !AfterRound(c, s, n, acc).active
  {
  }

  // ---- What the policy means ----

  lemma QuotientAtLeast(x: real, n: real, r: real)
    requires n > 0.0
    ensures x / n >= r <==> x >= r * n
    ensures x / n <= r <==> x <= r * n
  {
    var y := x / n;
    assert y * n == x;
    if y >= r { assert (y - r) * n >= 0.0; } else { assert (r - y) * n > 0.0; }
    if y <= r { assert (r - y) * n >= 0.0; } else { assert (y - r) * n > 0.0; }
  }

  /** In whole numbers: two more, up to the maximum, when at least nine in ten were accepted; two fewer, down to the
      minimum, when at most four in ten were; and otherwise the same length. */
  lemma AdaptExactly(c: Config, length: int, acc: nat, n: nat)
    requires n > 0
    ensures var next := AdaptLength(c, length, acc, n);
            && (10 * acc >= 9 * n ==>
                  next <= length + 2 && next <= c.maxDraft && (next == length + 2 || next == c.maxDraft))
            && (10 * acc <= 4 * n ==>
                  next >= length - 2 && next >= c.minDraft && (next == length - 2 || next == c.minDraft))
            && (4 * n < 10 * acc < 9 * n ==> next == length)
  {
    QuotientAtLeast(acc as real, n as real, 0.9);
    QuotientAtLeast(acc as real, n as real, 0.4);
    assert acc as real >= 0.9 * n as real <==> 10 * acc >= 9 * n;
    assert acc as real <= 0.4 * n as real <==> 10 * acc <= 4 * n;
  }

  /** Accepting more never drafts less. */
  lemma AdaptMonotone(c: Config, length: int, acc: nat, acc': nat, n: nat)
    requires c.minDraft <= length <= c.maxDraft && acc <= acc'
    ensures AdaptLength(c, length, acc, n) <= AdaptLength(c, length, acc', n)
  {
    if n > 0 {
      AdaptExactly(c, length, acc, n);
      AdaptExactly(c, length, acc', n);
    }
  }

  /** A wholly accepted round drafts more next time, unless at the maximum; a wholly rejected one less, unless at
      the minimum. */
  lemma AdaptMoves(c: Config, length: int, n: nat)
    requires c.minDraft <= length <= c.maxDraft && n > 0
    ensures length < c.maxDraft ==> AdaptLength(c, length, n, n) > length
    ensures length > c.minDraft ==> AdaptLength(c, length, 0, n) < length
  {
    AdaptExactly(c, length, n, n);
    AdaptExactly(c, length, 0, n);
  }

  /** The draft length after rounds of which `outcomes` tell how many tokens were accepted and how many drafted. */
  function LengthAfter(c: Config, length: int, outcomes: seq<(nat, nat)>): int
    decreases |outcomes|
  {
    if outcomes == [] then length
    else LengthAfter(c, AdaptLength(c, length, outcomes[0].0, outcomes[0].1), outcomes[1..])
  }

  /** Enough wholly accepted rounds reach the maximum, and enough wholly rejected ones the minimum. */
  lemma {:induction false} AdaptReaches(c: Config, length: int, outcomes: seq<(nat, nat)>)
    requires c.minDraft <= length <= c.maxDraft
    ensures (forall o | o in outcomes :: o.0 == o.1 > 0) && 2 * |outcomes| >= c.maxDraft - length ==>
              LengthAfter(c, length, outcomes) == c.maxDraft
    ensures (forall o | o in outcomes :: o.0 == 0 < o.1) && 2 * |outcomes| >= length - c.minDraft ==>
              LengthAfter(c, length, outcomes) == c.minDraft
    decreases |outcomes|
  {
    if outcomes != [] {
      var (acc, n) := outcomes[0];
      assert outcomes[0] in outcomes && forall o | o in outcomes[1..] :: o in outcomes;
      if n > 0 { AdaptExactly(c, length, acc, n); }
      AdaptReaches(c, AdaptLength(c, length, acc, n), outcomes[1..]);
    }
  }

  /** Speculation goes off exactly when enough tokens were drafted and too small a share of them was accepted. */
  lemma DisablesExactly(c: Config, active: bool, accepted: nat, drafted: nat)
    requires drafted > 0
    ensures StaysActive(c, active, accepted, drafted) <==>
              active && !(drafted >= c.disableAfter && accepted as real < c.disableBelow * drafted as real)
  {
    QuotientAtLeast(accepted as real, drafted as real, c.disableBelow);
  }
}
