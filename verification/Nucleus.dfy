/**
 The sampling distribution: repeat penalty, temperature, softmax and the top-p nucleus. The nucleus is
 found by selecting the top k tokens, sorting only those, and widening k when they do not hold
 enough mass. `exp` is any positive, increasing function that turns sums into products.
 */
module Nucleus {
  import opened Collections
  import opened Sums
  import opened Acceptance
  import opened Backends
  import opened Generation

  // ---- Orders of the vocabulary ----

  /** A permutation of 0..n-1. */
  ghost predicate Perm(o: seq<nat>, n: nat) {
    |o| == n && (forall i | 0 <= i < n :: o[i] < n) && Distinct(o)
  }

  ghost predicate Distinct(o: seq<nat>) {
    forall i, j | 0 <= i < j < |o| :: o[i] != o[j]
  }

  /** The first `k` places hold the `k` largest entries of `p`, largest first. */
  ghost predicate TopK(p: seq<real>, o: seq<nat>, k: nat) {
    && Perm(o, |p|) && k <= |p|
    && (forall i, j | 0 <= i < j < k :: p[o[i]] >= p[o[j]])
    && (forall i, j | 0 <= i < k <= j < |p| :: p[o[i]] >= p[o[j]])
  }

  ghost function Elements(s: seq<nat>): set<nat> {
    set i | 0 <= i < |s| :: s[i]
  }

  lemma {:induction false} ElementsCard(s: seq<nat>)
    requires Distinct(s)
    ensures |Elements(s)| == |s|
  {
    if s != [] {
      var t, x := s[..|s| - 1], s[|s| - 1];
      ElementsCard(t);
      assert Elements(s) == Elements(t) + {x};
      assert x !in Elements(t);
    }
  }

  /** Distinct elements cannot all come from a shorter list. */
  lemma Pigeonhole(s: seq<nat>, t: seq<nat>)
    requires Distinct(s) && Distinct(t) && |t| < |s|
    ensures exists i | 0 <= i < |s| :: s[i] !in t
  {
    ElementsCard(s);
    ElementsCard(t);
    SubsetCard(Elements(s), Elements(t));
    var x :| x in Elements(s) && x !in Elements(t);
    assert forall i | 0 <= i < |t| :: t[i] in Elements(t);
  }

  /** A permutation mentions everything. */
  lemma PermFinds(o: seq<nat>, n: nat, x: nat)
    requires Perm(o, n) && x < n
    ensures exists r | 0 <= r < |o| :: o[r] == x
  {
    ElementsCard(o);
    assert UpTo(n) == Elements(o) + (UpTo(n) - Elements(o));
    assert x in Elements(o);
  }

  // ---- Any two ways to find the top k agree on their probabilities ----

  /** At every rank below k, the value is at most that of any other top-k order: otherwise too many tokens would
      be larger. */
  lemma RankAtMost(p: seq<real>, a: seq<nat>, k: nat, b: seq<nat>, k': nat, i: nat)
    requires TopK(p, a, k) && TopK(p, b, k') && i < k && i < k'
    ensures p[a[i]] <= p[b[i]]
  {
    var s, t := a[..i + 1], b[..i];
    Pigeonhole(s, t);
    var j :| 0 <= j < |s| && s[j] !in t;
    PermFinds(b, |p|, a[j]);
    var r :| 0 <= r < |b| && b[r] == a[j];
    assert forall x | 0 <= x < i :: b[x] in t;
    assert r >= i;
    assert p[a[i]] <= p[a[j]] == p[b[r]] <= p[b[i]];
  }

  /** The top-k values do not depend on how ties were broken or how the rest was left. */
  lemma RankValue(p: seq<real>, a: seq<nat>, k: nat, b: seq<nat>, k': nat, i: nat)
    requires TopK(p, a, k) && TopK(p, b, k') && i < k && i < k'
    ensures p[a[i]] == p[b[i]]
  {
    RankAtMost(p, a, k, b, k', i);
    RankAtMost(p, b, k', a, k, i);
  }

  // ---- Mass ----

  /** Mass of the first `m` tokens of an order. */
  function PrefixMass(p: seq<real>, o: seq<nat>, m: nat): real {
    SumTo((i: nat) => if i < |o| then At(p, o[i]) else 0.0, m)
  }

  lemma {:induction false} PrefixMassSame(p: seq<real>, a: seq<nat>, k: nat, b: seq<nat>, k': nat, m: nat)
    requires TopK(p, a, k) && TopK(p, b, k') && m <= k && m <= k'
    ensures PrefixMass(p, a, m) == PrefixMass(p, b, m)
  {
    if m > 0 {
      PrefixMassSame(p, a, k, b, k', m - 1);
      RankValue(p, a, k, b, k', m - 1);
    }
  }

  lemma {:induction false} PrefixMassMonotone(p: seq<real>, o: seq<nat>, m: nat, m': nat)
    requires m <= m' && forall i | 0 <= i < |p| :: p[i] >= 0.0
    ensures PrefixMass(p, o, m) <= PrefixMass(p, o, m')
  {
    if m < m' { PrefixMassMonotone(p, o, m, m' - 1); }
  }

  /** Sum of `f` over a list of tokens. */
  function SumOver(f: nat -> real, s: seq<nat>): real {
    if s == [] then 0.0 else SumOver(f, s[..|s| - 1]) + f(s[|s| - 1])
  }

  lemma {:induction false} SumOverRemove(f: nat -> real, s: seq<nat>, r: nat)
    requires r < |s|
    ensures SumOver(f, s) == f(s[r]) + SumOver(f, s[..r] + s[r + 1..])
    decreases |s|
  {
    var t := s[..|s| - 1];
    if r == |s| - 1 {
      assert s[..r] + s[r + 1..] == t;
    } else {
      SumOverRemove(f, t, r);
      var u := s[..r] + s[r + 1..];
      assert u[..|u| - 1] == t[..r] + t[r + 1..];
      assert u[|u| - 1] == s[|s| - 1];
    }
  }

  /** A sum over the vocabulary may be taken in any order. */
  lemma {:induction false} SumInAnyOrder(f: nat -> real, o: seq<nat>, n: nat)
    requires Perm(o, n)
    ensures SumOver(f, o) == SumTo(f, n)
    decreases n
  {
    if n > 0 {
      PermFinds(o, n, n - 1);
      var r :| 0 <= r < |o| && o[r] == n - 1;
      SumOverRemove(f, o, r);
      RemovePerm(o, n, r);
      SumInAnyOrder(f, o[..r] + o[r + 1..], n - 1);
    }
  }

  lemma RemovePerm(o: seq<nat>, n: nat, r: nat)
    requires Perm(o, n) && r < n && o[r] == n - 1
    ensures Perm(o[..r] + o[r + 1..], n - 1)
  {
    var u := o[..r] + o[r + 1..];
    forall i | 0 <= i < |u| ensures u[i] < n - 1 {
      assert u[i] == o[if i < r then i else i + 1];
    }
    forall i, j | 0 <= i < j < |u| ensures u[i] != u[j] {
      assert u[i] == o[if i < r then i else i + 1] && u[j] == o[if j < r then j else j + 1];
    }
  }

  lemma {:induction false} PrefixMassIsSum(p: seq<real>, o: seq<nat>, m: nat)
    requires m <= |o|
    ensures PrefixMass(p, o, m) == SumOver((x: nat) => At(p, x), o[..m])
  {
    if m > 0 {
      PrefixMassIsSum(p, o, m - 1);
      assert o[..m][..m - 1] == o[..m - 1];
    } else {
      assert o[..0] == [];
    }
  }

  lemma WholeMass(p: seq<real>, o: seq<nat>)
    requires Perm(o, |p|)
    ensures PrefixMass(p, o, |p|) == Mass(p)
  {
    PrefixMassIsSum(p, o, |p|);
    assert o[..|p|] == o;
    SumInAnyOrder((x: nat) => At(p, x), o, |p|);
    SumExt((x: nat) => At(p, x), (i: nat) => At(p, i), |p|);
  }

  lemma AtIs(p: seq<real>, x: nat)
    ensures x < |p| ==> At(p, x) == p[x]
  {
  }

  lemma RemoveDistinct(s: seq<nat>, i: nat, n: nat)
    requires i < |s| && Distinct(s) && forall x | 0 <= x < |s| :: s[x] < n
    ensures var u := s[..i] + s[i + 1..]; Distinct(u) && forall x | 0 <= x < |u| :: u[x] < n
  {
    var u := s[..i] + s[i + 1..];
    forall x | 0 <= x < |u| ensures u[x] == s[if x < i then x else x + 1] {
    }
  }

  /** Of m tokens, some one is not among the first m - 1 of a top-k order, so it is no likelier than the next. */
  lemma NotInTop(p: seq<real>, o: seq<nat>, k: nat, s: seq<nat>) returns (i: nat)
    requires TopK(p, o, k) && 0 < |s| <= k && Distinct(s) && forall i | 0 <= i < |s| :: s[i] < |p|
    ensures i < |s| && |s| <= |o| && o[|s| - 1] < |p| && p[s[i]] <= p[o[|s| - 1]]
  {
    var t := o[..|s| - 1];
    Pigeonhole(s, t);
    i :| 0 <= i < |s| && s[i] !in t;
    PermFinds(o, |p|, s[i]);
    var r :| 0 <= r < |o| && o[r] == s[i];
    assert forall x | 0 <= x < |t| :: o[x] == t[x] && o[x] in t;
    assert r >= |s| - 1;
  }

  /** No set of m tokens holds more mass than the first m of a top-k order. */
  lemma {:induction false} TopMassIsLargest(p: seq<real>, o: seq<nat>, k: nat, s: seq<nat>)
    requires TopK(p, o, k) && |s| <= k && Distinct(s) && forall i | 0 <= i < |s| :: s[i] < |p|
    ensures SumOver((x: nat) => At(p, x), s) <= PrefixMass(p, o, |s|)
    decreases |s|
  {
    hide TopK, Perm, Distinct, At;
    if s != [] {
      var i := NotInTop(p, o, k, s);
      var u := s[..i] + s[i + 1..];
      RemoveDistinct(s, i, |p|);
      SumOverRemove((x: nat) => At(p, x), s, i);
      TopMassIsLargest(p, o, k, u);
      AtIs(p, s[i]);
      AtIs(p, o[|s| - 1]);
    }
  }

  // ---- The nucleus ----

  /** `keep` tokens of the order are the nucleus for `top`: they reach it, and no fewer of them do. */
  ghost predicate Shortest(p: seq<real>, o: seq<nat>, top: real, keep: nat) {
    && 1 <= keep <= |p| && PrefixMass(p, o, keep) >= top
    && forall m | 1 <= m < keep :: PrefixMass(p, o, m) < top
  }

  /** The nucleus renormalized, everything else zero. */
  function Renormalized(p: seq<real>, o: seq<nat>, keep: nat): seq<real> {
    seq(|p|, (x: nat) => if x in o[..if keep <= |o| then keep else |o|] && PrefixMass(p, o, keep) != 0.0
                         then At(p, x) / PrefixMass(p, o, keep) else 0.0)
  }

  ghost predicate NucleusBy(p: seq<real>, top: real, r: seq<real>, o: seq<nat>, keep: nat) {
    TopK(p, o, keep) && Shortest(p, o, top, keep) && r == Renormalized(p, o, keep)
  }

  /** `r` is a top-p nucleus of `p`; ties may have been broken in any way. */
  ghost predicate IsNucleus(p: seq<real>, top: real, r: seq<real>) {
    exists o: seq<nat>, keep: nat :: NucleusBy(p, top, r, o, keep)
  }

  /** The widened search keeps exactly as many tokens, with exactly the same probabilities, as sorting the
      whole vocabulary. */
  lemma SameAsFullSort(p: seq<real>, top: real, r: seq<real>, o: seq<nat>, keep: nat, full: seq<nat>)
    requires NucleusBy(p, top, r, o, keep) && TopK(p, full, |p|)
    ensures Shortest(p, full, top, keep)
    ensures forall i | 0 <= i < keep :: p[o[i]] == p[full[i]]
  {
    forall m: nat | m <= keep ensures PrefixMass(p, o, m) == PrefixMass(p, full, m) {
      PrefixMassSame(p, o, keep, full, |p|, m);
    }
    forall i | 0 <= i < keep ensures p[o[i]] == p[full[i]] {
      RankValue(p, o, keep, full, |p|, i);
    }
  }

  /** Every kept token is at least as likely as every dropped one, and no smaller set of tokens
      reaches the threshold. */
  lemma NucleusIsSmallest(p: seq<real>, top: real, r: seq<real>, o: seq<nat>, keep: nat, s: seq<nat>)
    requires NucleusBy(p, top, r, o, keep)
    requires 1 <= |s| < keep && Distinct(s) && forall i | 0 <= i < |s| :: s[i] < |p|
    ensures SumOver((x: nat) => At(p, x), s) < top
  {
    TopMassIsLargest(p, o, keep, s);
  }

  // ---- Computing it ----

  /** Sorts the first `k` places by probability, largest first, and leaves the others alone. */
  method SortPrefix(p: seq<real>, order: seq<nat>, k: nat) returns (o: seq<nat>)
    requires Perm(order, |p|) && k <= |p|
    ensures Perm(o, |p|) && o[k..] == order[k..]
    ensures forall i, j | 0 <= i < j < k :: p[o[i]] >= p[o[j]]
    ensures forall i | 0 <= i < k :: o[i] in order[..k]
  {
    o := order;
    for i := 0 to k
      invariant Perm(o, |p|) && o[k..] == order[k..]
      invariant forall x | 0 <= x < k :: o[x] in order[..k]
      invariant forall x, y | 0 <= x < i && x < y < k :: p[o[x]] >= p[o[y]]
    {
      var best := i;
      for j := i + 1 to k
        invariant i <= best < k
        invariant forall x | i <= x < j :: p[o[best]] >= p[o[x]]
      {
        if p[o[j]] > p[o[best]] { best := j; }
      }
      o := Swapped(p, o, i, best, k);
    }
  }

  lemma SwapPerm(o: seq<nat>, n: nat, i: nat, j: nat)
    requires Perm(o, n) && i < n && j < n
    ensures Perm(o[i := o[j]][j := o[i]], n)
  {
  }

  /** One exchange of the sort. */
  method Swapped(p: seq<real>, order: seq<nat>, i: nat, best: nat, k: nat) returns (o: seq<nat>)
    requires Perm(order, |p|) && i <= best < k <= |p|
    requires forall x | i <= x < k :: p[order[best]] >= p[order[x]]
    requires forall x, y | 0 <= x < i && x < y < k :: p[order[x]] >= p[order[y]]
    ensures Perm(o, |p|) && o[k..] == order[k..]
    ensures forall x | 0 <= x < k :: exists y | 0 <= y < k :: o[x] == order[y]
    ensures forall x, y | 0 <= x < i + 1 && x < y < k :: p[o[x]] >= p[o[y]]
  {
    o := order[i := order[best]][best := order[i]];
    SwapPerm(order, |p|, i, best);
    hide Perm;
    forall x | 0 <= x < k ensures exists y | 0 <= y < k :: o[x] == order[y] {
      assert o[x] == order[if x == i then best else if x == best then i else x];
    }
  }

  /** Brings the k largest entries to the front, in any order. */
  method SelectTop(p: seq<real>, order: seq<nat>, k: nat) returns (o: seq<nat>)
    requires Perm(order, |p|) && k <= |p|
    ensures Perm(o, |p|)
    ensures forall i, j | 0 <= i < k <= j < |p| :: p[o[i]] >= p[o[j]]
  {
    o := SortPrefix(p, order, |p|);
  }

  /** Select, then sort only the selection. */
  method TopOrder(p: seq<real>, order: seq<nat>, k: nat) returns (o: seq<nat>)
    requires Perm(order, |p|) && k <= |p|
    ensures TopK(p, o, k)
  {
    var selected := order;
    if k < |p| { selected := SelectTop(p, order, k); }
    o := SortPrefix(p, selected, k);
    forall i, j | 0 <= i < k <= j < |p| ensures p[o[i]] >= p[o[j]] {
      var x :| 0 <= x < k && selected[..k][x] == o[i];
      assert o[j] == o[k..][j - k] == selected[k..][j - k] == selected[j];
    }
  }

  /** The shortest prefix of the sorted selection that reaches the threshold, or all of it. */
  method ScanPrefix(p: seq<real>, o: seq<nat>, k: nat, top: real) returns (keep: nat, cumulative: real)
    requires Perm(o, |p|) && 1 <= k <= |p|
    ensures 1 <= keep <= k && cumulative == PrefixMass(p, o, keep)
    ensures forall m | 1 <= m < keep :: PrefixMass(p, o, m) < top
    ensures cumulative >= top || keep == k
  {
    keep, cumulative := 0, 0.0;
    while keep < k
      invariant keep <= k && cumulative == PrefixMass(p, o, keep)
      invariant forall m | 1 <= m <= keep :: PrefixMass(p, o, m) < top
      decreases k - keep
    {
      cumulative := cumulative + p[o[keep]];
      keep := keep + 1;
      if cumulative >= top { return; }
    }
  }

  /** The widening search. It ends, and what it finds is the nucleus of the whole vocabulary. */
  method FindNucleus(p: seq<real>, top: real) returns (o: seq<nat>, keep: nat, cumulative: real)
    requires IsDist(p) && |p| > 0 && 0.0 <= top < 1.0
    ensures TopK(p, o, keep) && Shortest(p, o, top, keep) && cumulative == PrefixMass(p, o, keep)
  {
    hide SumTo;
    o := seq(|p|, (i: nat) => i);
    var k := if 512 < |p| then 512 else |p|;
    while true
      invariant Perm(o, |p|) && 1 <= k <= |p|
      decreases |p| - k
    {
      o := TopOrder(p, o, k);
      keep, cumulative := ScanPrefix(p, o, k, top);
      WholeMass(p, o);
      if cumulative >= top || k == |p| { return; }
      k := if k * 4 < |p| then k * 4 else |p|;
    }
  }

  /** The likeliest token has positive probability, so the nucleus has positive mass. */
  lemma NucleusMassPositive(p: seq<real>, o: seq<nat>, k: nat, keep: nat)
    requires IsDist(p) && TopK(p, o, k) && 1 <= keep && 1 <= k
    ensures PrefixMass(p, o, keep) > 0.0
  {
    PrefixMassMonotone(p, o, 1, keep);
    assert PrefixMass(p, o, 1) == p[o[0]];
    if p[o[0]] <= 0.0 {
      forall x: nat | x < |p| ensures At(p, x) == 0.0 {
        PermFinds(o, |p|, x);
        var r :| 0 <= r < |o| && o[r] == x;
        assert p[o[r]] <= p[o[0]];
      }
      SumPad((i: nat) => At(p, i), 0, |p|);
    }
  }

  /** The renormalized nucleus is a distribution. */
  lemma RenormalizedIsDist(p: seq<real>, o: seq<nat>, keep: nat)
    requires IsDist(p) && TopK(p, o, keep) && keep >= 1
    ensures IsDist(Renormalized(p, o, keep))
  {
    var r := Renormalized(p, o, keep);
    var c := PrefixMass(p, o, keep);
    NucleusMassPositive(p, o, keep, keep);
    forall x | 0 <= x < |r| ensures r[x] >= 0.0 {
      if x in o[..keep] { NonnegQuotient(p[x], c); }
    }
    WholeMass(r, o);
    PrefixMassRenormalized(p, o, keep, keep);
    MassPastKeep(p, o, keep, |p|);
    assert Mul(1.0 / c, c) == 1.0;
  }

  lemma NonnegQuotient(x: real, c: real)
    requires x >= 0.0 && c > 0.0
    ensures x / c >= 0.0 && x / c == Mul(1.0 / c, x)
  {
  }

  lemma {:induction false} PrefixMassRenormalized(p: seq<real>, o: seq<nat>, keep: nat, m: nat)
    requires IsDist(p) && TopK(p, o, keep) && m <= keep && PrefixMass(p, o, keep) > 0.0
    ensures PrefixMass(Renormalized(p, o, keep), o, m) == Mul(1.0 / PrefixMass(p, o, keep), PrefixMass(p, o, m))
  {
    var r, c := Renormalized(p, o, keep), PrefixMass(p, o, keep);
    if m > 0 {
      PrefixMassRenormalized(p, o, keep, m - 1);
      var x := o[m - 1];
      assert x == o[..keep][m - 1];
      assert r[x] == p[x] / c;
      NonnegQuotient(p[x], c);
      MulLaws(1.0 / c, PrefixMass(p, o, m - 1), p[x]);
    } else {
      MulLaws(1.0 / c, 0.0, 0.0);
    }
  }

  lemma {:induction false} MassPastKeep(p: seq<real>, o: seq<nat>, keep: nat, m: nat)
    requires TopK(p, o, keep) && keep <= m <= |p|
    ensures PrefixMass(Renormalized(p, o, keep), o, m) == PrefixMass(Renormalized(p, o, keep), o, keep)
  {
    if m > keep {
      MassPastKeep(p, o, keep, m - 1);
      assert o[m - 1] !in o[..keep];
    }
  }

  lemma PermOf(p: seq<real>, o: seq<nat>, k: nat)
    requires TopK(p, o, k)
    ensures |o| == |p| && k <= |p| && (forall i | 0 <= i < |o| :: o[i] < |p|) && forall i, j | 0 <= i < j < |o| ::
              o[i] != o[j]
  {
  }

  /** A vector is the renormalized nucleus if it is at every rank. */
  lemma IsRenormalized(p: seq<real>, o: seq<nat>, keep: nat, r: seq<real>)
    requires TopK(p, o, keep) && PrefixMass(p, o, keep) > 0.0 && |r| == |p|
    requires forall x | 0 <= x < |p| :: r[o[x]] == if x < keep then p[o[x]] / PrefixMass(p, o, keep) else 0.0
    ensures r == Renormalized(p, o, keep)
  {
    hide PrefixMass;
    forall x | 0 <= x < |p| ensures r[x] == Renormalized(p, o, keep)[x] {
      PermFinds(o, |p|, x);
      var i :| 0 <= i < |o| && o[i] == x;
      RankOf(o, |p|, keep, i);
    }
  }

  /** Zeroes the tail and renormalizes the nucleus in place. */
  method Renormalize(p: seq<real>, o: seq<nat>, keep: nat, cumulative: real) returns (r: seq<real>)
    requires IsDist(p) && TopK(p, o, keep) && keep >= 1 && cumulative == PrefixMass(p, o, keep)
    ensures r == Renormalized(p, o, keep) && IsDist(r)
  {
    hide SumTo, Mass, TopK, Renormalized, PrefixMass, IsDist;
    NucleusMassPositive(p, o, keep, keep);
    RenormalizedIsDist(p, o, keep);
    PermOf(p, o, keep);
    var probs := new real[|p|](i requires 0 <= i < |p| => p[i]);
    for i := keep to |p|
      invariant forall x | keep <= x < i :: probs[o[x]] == 0.0
      invariant forall x | (0 <= x < keep || i <= x < |p|) :: probs[o[x]] == p[o[x]]
    {
      probs[o[i]] := 0.0;
    }
    for i := 0 to keep
      invariant forall x | keep <= x < |p| :: probs[o[x]] == 0.0
      invariant forall x | 0 <= x < i :: probs[o[x]] == p[o[x]] / cumulative
      invariant forall x | i <= x < keep :: probs[o[x]] == p[o[x]]
    {
      probs[o[i]] := probs[o[i]] / cumulative;
    }
    r := probs[..];
    IsRenormalized(p, o, keep, r);
  }

  lemma RankOf(o: seq<nat>, n: nat, keep: nat, i: nat)
    requires Perm(o, n) && keep <= n && i < n
    ensures o[i] in o[..keep] <==> i < keep
  {
    if i < keep { assert o[..keep][i] == o[i]; }
  }

  // ---- The whole distribution ----

  datatype Config = Config(temperature: real, topP: real, penalty: real, lastN: int, exp: real -> real)

  ghost predicate ValidConfig(c: Config) {
    && (forall x: real :: c.exp(x) > 0.0)
    && (forall x: real, y: real | x < y :: c.exp(x) < c.exp(y))
    && (forall x: real, y: real :: SumsToProducts(c.exp, x, y))
  }

  ghost predicate SumsToProducts(f: real -> real, x: real, y: real) {
    f(x + y) == Mul(f(x), f(y))
  }

  /** A logit after penalties: a penalty of zero sends positive logits to infinity. */
  datatype Logit = Finite(value: real) | Infinite

  function PenalizeOne(c: Config, l: Logit): Logit {
    match l
    case Infinite => Infinite
    case Finite(v) =>
      if v <= 0.0 then Finite(v * c.penalty)
      else if c.penalty == 0.0 then Infinite
      else Finite(v / c.penalty)
  }

  /** Penalizes once for every occurrence in the window, in order. */
  function PenalizeAll(c: Config, logits: seq<Logit>, window: seq<nat>): (r: seq<Logit>)
    ensures |r| == |logits|
    decreases |window|
  {
    if window == [] then logits
    else
      var t := window[0];
      PenalizeAll(c, if t < |logits| then logits[t := PenalizeOne(c, logits[t])] else logits, window[1..])
  }

  /** The last tokens of the text, which are penalized. */
  function Window(c: Config, recent: seq<nat>): seq<nat> {
    if c.penalty == 1.0 || c.lastN <= 0 then []
    else recent[if |recent| < c.lastN then 0 else |recent| - c.lastN..]
  }

  function Plainly(logits: seq<real>): (r: seq<Logit>)
    ensures |r| == |logits| && forall i | 0 <= i < |r| :: r[i] == Finite(logits[i])
  {
    seq(|logits|, i requires 0 <= i < |logits| => Finite(logits[i]))
  }

  function Penalized(c: Config, logits: seq<real>, recent: seq<nat>): (r: seq<Logit>)
    ensures |r| == |logits|
  {
    PenalizeAll(c, Plainly(logits), Window(c, recent))
  }

  predicate AllFinite(l: seq<Logit>) {
    forall i | 0 <= i < |l| :: l[i].Finite?
  }

  function Values(l: seq<Logit>): (v: seq<real>)
    ensures |v| == |l| && forall i | 0 <= i < |l| && l[i].Finite? :: v[i] == l[i].value
  {
    seq(|l|, i requires 0 <= i < |l| => if l[i].Finite? then l[i].value else 0.0)
  }

  function FirstInfinite(l: seq<Logit>, i: nat): (a: nat)
    requires i <= |l|
    ensures i <= a <= |l| && (a < |l| ==> l[a].Infinite?) && forall x | i <= x < a :: l[x].Finite?
    decreases |l| - i
  {
    if i == |l| || l[i].Infinite? then i else FirstInfinite(l, i + 1)
  }

  /** The first largest logit, an infinite one above all others. */
  function Largest(l: seq<Logit>): (a: nat)
    ensures l != [] ==> a < |l|
    ensures l != [] ==> forall i | 0 <= i < |l| :: l[a].Infinite? || (l[i].Finite? && l[i].value <= l[a].value)
    ensures l != [] ==> forall i | 0 <= i < a :: l[i].Finite? && (l[a].Finite? ==> l[i].value < l[a].value)
  {
    var a := FirstInfinite(l, 0);
    if a < |l| then a else Argmax(Values(l))
  }

  /** Which logits a penalty sends to infinity. */
  lemma {:induction false} InfiniteWhere(c: Config, logits: seq<Logit>, window: seq<nat>, i: nat)
    requires i < |logits|
    ensures PenalizeAll(c, logits, window)[i].Infinite? <==>
              logits[i].Infinite? || (c.penalty == 0.0 && i in window && logits[i].value > 0.0)
    decreases |window|
  {
    if window != [] {
      var t := window[0];
      InfiniteWhere(c, if t < |logits| then logits[t := PenalizeOne(c, logits[t])] else logits, window[1..], i);
    }
  }

  /** A logit goes to infinity exactly when the penalty is zero and a token with a positive logit is in the window. */
  lemma FiniteExactly(c: Config, logits: seq<real>, recent: seq<nat>)
    ensures AllFinite(Penalized(c, logits, recent)) <==>
              !(c.penalty == 0.0 && exists i | 0 <= i < |logits| :: i in Window(c, recent) && logits[i] > 0.0)
  {
    forall i | 0 <= i < |logits| {
      InfiniteWhere(c, Plainly(logits), Window(c, recent), i);
    }
  }

  function Pow(x: real, n: nat): real {
    if n == 0 then 1.0 else x * Pow(x, n - 1)
  }

  lemma {:induction false} PowBounds(x: real, n: nat)
    ensures x == 1.0 ==> Pow(x, n) == 1.0
    ensures x > 0.0 ==> Pow(x, n) > 0.0
    ensures x > 1.0 && n > 0 ==> Pow(x, n) > 1.0
  {
    if n > 0 { PowBounds(x, n - 1); }
  }

  /** A logit penalized `n` times: it moves away from the top by the penalty's power. */
  function Lowered(c: Config, v: real, n: nat): real
    requires c.penalty > 0.0
  {
    PowBounds(c.penalty, n);
    if v > 0.0 then v / Pow(c.penalty, n) else v * Pow(c.penalty, n)
  }

  lemma LoweredOnce(c: Config, v: real, n: nat)
    requires c.penalty > 0.0
    ensures PenalizeOne(c, Finite(v)).Finite?
    ensures Lowered(c, PenalizeOne(c, Finite(v)).value, n) == Lowered(c, v, n + 1)
    ensures Lowered(c, v, 0) == v
  {
    hide Pow;
    PowBounds(c.penalty, n);
    PowNext(c.penalty, n);
    if v > 0.0 {
      QuotientTwice(v, c.penalty, Pow(c.penalty, n));
    } else {
      ProductTwice(v, c.penalty, Pow(c.penalty, n));
    }
  }

  lemma PowNext(x: real, n: nat)
    ensures Pow(x, n + 1) == x * Pow(x, n) && Pow(x, 0) == 1.0
  {
  }

  lemma QuotientTwice(v: real, q: real, y: real)
    requires v > 0.0 && q > 0.0 && y > 0.0
    ensures v / q > 0.0 && q * y > 0.0 && (v / q) / y == v / (q * y)
  {
    var z := (v / q) / y;
    assert z * y == v / q;
    assert z * (q * y) == (z * y) * q == v;
  }

  lemma ProductTwice(v: real, q: real, y: real)
    requires v <= 0.0 && q > 0.0
    ensures v * q <= 0.0 && (v * q) * y == v * (q * y)
  {
  }

  /** Where a token stands from a given place on. */
  ghost function Places(recent: seq<nat>, from: nat, i: nat): set<nat> {
    set k: nat | from <= k < |recent| && recent[k] == i
  }

  lemma {:induction false} PenalizedTimes(c: Config, logits: seq<Logit>, recent: seq<nat>, from: nat, i: nat)
    requires c.penalty > 0.0 && i < |logits| && logits[i].Finite? && from <= |recent|
    ensures PenalizeAll(c, logits, recent[from..])[i]
         == Finite(Lowered(c, logits[i].value, |Places(recent, from, i)|))
    decreases |recent| - from
  {
    hide Lowered;
    var places := Places(recent, from, i);
    LoweredOnce(c, logits[i].value, 0);
    if from == |recent| {
      assert places == {};
    } else {
      var t := recent[from];
      var rest := Places(recent, from + 1, i);
      assert recent[from..][1..] == recent[from + 1..] && recent[from..][0] == t;
      PenalizedTimes(c, if t < |logits| then logits[t := PenalizeOne(c, logits[t])] else logits, recent, from + 1, i);
      if t == i {
        assert places == rest + {from};
        LoweredOnce(c, logits[i].value, |rest|);
      } else {
        assert places == rest;
      }
    }
  }

  /** The first place of the text that is penalized: the newest `lastN` are. */
  function WindowStart(c: Config, recent: seq<nat>): (from: nat)
    ensures from <= |recent|
    ensures |recent| - from == if c.lastN <= 0 then 0 else if |recent| < c.lastN then |recent| else c.lastN
  {
    if c.lastN <= 0 then |recent| else if |recent| < c.lastN then 0 else |recent| - c.lastN
  }

  /** A positive penalty divides a positive logit, and multiplies any other, once for every time the token stands among
      the newest `lastN`. */
  lemma PenalizedExactly(c: Config, logits: seq<real>, recent: seq<nat>, i: nat)
    requires c.penalty > 0.0 && i < |logits|
    ensures var n := |Places(recent, WindowStart(c, recent), i)|;
            && Pow(c.penalty, n) > 0.0
            && Penalized(c, logits, recent)[i] == Finite(Lowered(c, logits[i], n))
            && Lowered(c, logits[i], n)
            == (if logits[i] > 0.0 then logits[i] / Pow(c.penalty, n) else logits[i] * Pow(c.penalty, n))
  {
    hide Lowered, Pow, PenalizeOne, Places;
    var from := WindowStart(c, recent);
    LoweredIs(c, logits[i], |Places(recent, from, i)|);
    if c.penalty != 1.0 {
      assert Window(c, recent) == recent[from..];
      PenalizedTimes(c, Plainly(logits), recent, from, i);
    }
  }

  lemma LoweredIs(c: Config, v: real, n: nat)
    requires c.penalty > 0.0
    ensures Pow(c.penalty, n) > 0.0
    ensures Lowered(c, v, n) == if v > 0.0 then v / Pow(c.penalty, n) else v * Pow(c.penalty, n)
    ensures c.penalty == 1.0 ==> Lowered(c, v, n) == v
  {
    PowBounds(c.penalty, n);
    ScaledDown(v, Pow(c.penalty, n));
  }

  /** A penalty above 1 lowers the nonzero logits of the tokens among the newest `lastN`, and no others. */
  lemma PenaltyLowers(c: Config, logits: seq<real>, recent: seq<nat>, i: nat)
    requires c.penalty > 1.0 && i < |logits|
    ensures var l := Penalized(c, logits, recent)[i];
            l.Finite? && if logits[i] != 0.0 && exists k | WindowStart(c, recent) <= k < |recent| :: recent[k] == i
                         then l.value < logits[i] else l.value == logits[i]
  {
    hide Pow, Penalized, WindowStart, Lowered;
    var places := Places(recent, WindowStart(c, recent), i);
    PenalizedExactly(c, logits, recent, i);
    LoweredFacts(c, logits[i], |places|);
    if k :| WindowStart(c, recent) <= k < |recent| && recent[k] == i {
      assert k in places && |places| > 0;
    } else {
      assert places == {};
    }
  }

  lemma LoweredFacts(c: Config, v: real, n: nat)
    requires c.penalty > 1.0
    ensures if v != 0.0 && n > 0 then Lowered(c, v, n) < v else Lowered(c, v, n) == v
  {
    PowBounds(c.penalty, n);
    ScaledDown(v, Pow(c.penalty, n));
    PowNext(c.penalty, 0);
  }

  lemma ScaledDown(v: real, y: real)
    requires y > 0.0
    ensures y > 1.0 && v > 0.0 ==> v / y < v
    ensures y > 1.0 && v < 0.0 ==> v * y < v
    ensures y == 1.0 ==> v / y == v && v * y == v
    ensures v == 0.0 ==> v * y == v
  {
    if y > 1.0 && v > 0.0 {
      QuotientTimes(v, y);
      Grows(v / y, y);
    }
  }

  lemma Grows(z: real, y: real)
    requires z > 0.0 && y > 1.0
    ensures z < Mul(z, y)
  {
    assert z * (y - 1.0) > 0.0;
  }

  method ApplyPenalty(c: Config, logits: seq<real>, recent: seq<nat>) returns (r: seq<Logit>)
    ensures r == Penalized(c, logits, recent)
  {
    r := Plainly(logits);
    if c.penalty != 1.0 && c.lastN > 0 {
      var start := if |recent| < c.lastN then 0 else |recent| - c.lastN;
      for i := start to |recent|
        invariant |r| == |logits| && PenalizeAll(c, r, recent[i..]) == Penalized(c, logits, recent)
      {
        assert recent[i..][1..] == recent[i + 1..];
        var t := recent[i];
        if t < |r| { r := r[t := PenalizeOne(c, r[t])]; }
      }
    }
  }

  /** Weights relative to the largest logit, at the given temperature. */
  function Weights(c: Config, logits: seq<real>): seq<real>
    requires c.temperature > 0.0
  {
    var max := At(logits, Argmax(logits));
    seq(|logits|, (i: nat) => if i < |logits| then c.exp((logits[i] - max) / c.temperature) else 0.0)
  }

  function Normalized(w: seq<real>): seq<real> {
    seq(|w|, (i: nat) => if Mass(w) != 0.0 then At(w, i) / Mass(w) else 0.0)
  }

  lemma NormalizedIsDist(w: seq<real>)
    requires |w| > 0 && forall i | 0 <= i < |w| :: w[i] > 0.0
    ensures Mass(w) > 0.0 && IsDist(Normalized(w)) && |Normalized(w)| == |w|
    ensures forall i | 0 <= i < |w| :: Normalized(w)[i] == w[i] / Mass(w)
  {
    SumNonneg((i: nat) => At(w, i), |w|);
    assert ((i: nat) => At(w, i))(0) == w[0] > 0.0;
    var r := Normalized(w);
    forall i | 0 <= i < |r| ensures r[i] >= 0.0 && r[i] == Mul(1.0 / Mass(w), w[i]) {
      NonnegQuotient(w[i], Mass(w));
    }
    SumScale(1.0 / Mass(w), (i: nat) => At(w, i), (i: nat) => At(r, i), |w|);
    assert Mul(1.0 / Mass(w), Mass(w)) == 1.0;
  }

  /** What a token's probability is proportional to. */
  function Share(c: Config, logits: seq<real>, i: nat): real
    requires c.temperature > 0.0
  {
    c.exp(At(logits, i) / c.temperature)
  }

  /** The softmax: a distribution whose entries are to each other as the exponentials of their logits at the given
      temperature. */
  ghost predicate IsSoftmax(c: Config, logits: seq<real>, p: seq<real>)
    requires c.temperature > 0.0
  {
    && |p| == |logits| && IsDist(p)
    && forall i, j | 0 <= i < |p| && 0 <= j < |p| ::
         Mul(p[i], Share(c, logits, j)) == Mul(p[j], Share(c, logits, i))
  }

  /** Each probability is the token's exponential over the sum of all of them; it is positive, and larger for a larger
      logit. */
  lemma SoftmaxExactly(c: Config, logits: seq<real>, p: seq<real>)
    requires ValidConfig(c) && c.temperature > 0.0 && IsSoftmax(c, logits, p)
    ensures |p| == |logits| && forall i | 0 <= i < |p| ::
              p[i] > 0.0 && p[i] * SumTo((j: nat) => Share(c, logits, j), |p|) == c.exp(logits[i] / c.temperature)
    ensures forall i, j | 0 <= i < |p| && 0 <= j < |p| && logits[i] < logits[j] :: p[i] < p[j]
  {
    hide ValidConfig, IsSoftmax, SumTo, IsDist, Mul;
    SoftmaxSize(c, logits, p);
    var total := SumTo((j: nat) => Share(c, logits, j), |p|);
    forall i | 0 <= i < |p| ensures p[i] > 0.0 && total > 0.0 && Mul(p[i], total) == Share(c, logits, i) {
      SoftmaxNonneg(c, logits, p, i);
      SoftmaxShare(c, logits, p, i);
      SharePositive(c, logits, i);
      PositiveFactors(p[i], total);
    }
    forall i | 0 <= i < |p| ensures p[i] * total == c.exp(logits[i] / c.temperature) {
      Product(p[i], total);
    }
    forall i, j | 0 <= i < |p| && 0 <= j < |p| && logits[i] < logits[j] ensures p[i] < p[j] {
      ShareIncreases(c, logits, i, j);
      CancelLess(p[i], p[j], total);
    }
  }

  lemma SoftmaxNonneg(c: Config, logits: seq<real>, p: seq<real>, i: nat)
    requires c.temperature > 0.0 && IsSoftmax(c, logits, p) && i < |p|
    ensures p[i] >= 0.0
  {
  }

  lemma SharePositive(c: Config, logits: seq<real>, i: nat)
    requires ValidConfig(c) && c.temperature > 0.0
    ensures Share(c, logits, i) > 0.0
  {
  }

  lemma ShareIncreases(c: Config, logits: seq<real>, i: nat, j: nat)
    requires ValidConfig(c) && c.temperature > 0.0 && i < |logits| && j < |logits| && logits[i] < logits[j]
    ensures Share(c, logits, i) < Share(c, logits, j)
  {
    QuotientLess(logits[i], logits[j], c.temperature);
  }

  lemma Product(x: real, y: real)
    ensures Mul(x, y) == x * y
  {
  }

  lemma CancelLess(x: real, y: real, z: real)
    requires z > 0.0 && Mul(x, z) < Mul(y, z)
    ensures x < y
  {
    if x >= y {
      MulMonotone(z, y, x);
      MulLaws(z, x, 0.0);
      MulLaws(z, y, 0.0);
    }
  }

  lemma QuotientLess(x: real, y: real, t: real)
    requires x < y && t > 0.0
    ensures x / t < y / t
  {
    assert (x / t) * t == x && (y / t) * t == y;
  }

  lemma PositiveFactors(x: real, y: real)
    requires x >= 0.0 && Mul(x, y) > 0.0
    ensures x > 0.0 && y > 0.0
  {
  }

  lemma SoftmaxShare(c: Config, logits: seq<real>, p: seq<real>, i: nat)
    requires c.temperature > 0.0 && IsSoftmax(c, logits, p) && i < |p|
    ensures Mul(p[i], SumTo((j: nat) => Share(c, logits, j), |p|)) == Share(c, logits, i)
  {
    hide Mul, Share;
    var e := (j: nat) => Share(c, logits, j);
    var x := (j: nat) => Mul(p[i], e(j));
    var y := (j: nat) => Mul(e(i), At(p, j));
    SumScale(p[i], e, x, |p|);
    SumScale(e(i), (j: nat) => At(p, j), y, |p|);
    forall j: nat | j < |p| ensures x(j) == y(j) {
      MulLaws(p[j], e(i), 0.0);
    }
    SumExt(x, y, |p|);
    MulLaws(1.0, e(i), 0.0);
    MulLaws(e(i), 1.0, 0.0);
  }

  /** The logits have one softmax. */
  lemma SoftmaxUnique(c: Config, logits: seq<real>, p: seq<real>, q: seq<real>)
    requires ValidConfig(c) && c.temperature > 0.0 && IsSoftmax(c, logits, p) && IsSoftmax(c, logits, q)
    ensures p == q
  {
    hide ValidConfig, IsSoftmax, SumTo, IsDist, Mul;
    SoftmaxSize(c, logits, p);
    SoftmaxSize(c, logits, q);
    var total := SumTo((j: nat) => Share(c, logits, j), |p|);
    forall i | 0 <= i < |p| ensures p[i] == q[i] {
      SoftmaxNonneg(c, logits, p, i);
      SoftmaxShare(c, logits, p, i);
      SoftmaxShare(c, logits, q, i);
      SharePositive(c, logits, i);
      PositiveFactors(p[i], total);
      CancelNonzero(p[i], q[i], total);
    }
  }

  lemma SoftmaxSize(c: Config, logits: seq<real>, p: seq<real>)
    requires c.temperature > 0.0 && IsSoftmax(c, logits, p)
    ensures |p| == |logits| && IsDist(p)
  {
  }

  lemma WeightsShare(c: Config, logits: seq<real>, i: nat)
    requires ValidConfig(c) && c.temperature > 0.0 && i < |logits|
    ensures Mul(Weights(c, logits)[i], c.exp(At(logits, Argmax(logits)) / c.temperature)) == Share(c, logits, i)
  {
    hide ValidConfig, Mul, Argmax;
    ShiftedExp(c, logits[i], At(logits, Argmax(logits)));
  }

  lemma ShiftedExp(c: Config, x: real, y: real)
    requires ValidConfig(c) && c.temperature > 0.0
    ensures Mul(c.exp((x - y) / c.temperature), c.exp(y / c.temperature)) == c.exp(x / c.temperature)
  {
    hide ValidConfig, Mul;
    QuotientSum(x - y, y, c.temperature);
    assert x - y + y == x;
    ExpOfSum(c, (x - y) / c.temperature, y / c.temperature);
  }

  lemma ExpOfSum(c: Config, x: real, y: real)
    requires ValidConfig(c)
    ensures c.exp(x + y) == Mul(c.exp(x), c.exp(y))
  {
    assert SumsToProducts(c.exp, x, y);
  }

  lemma QuotientSum(x: real, y: real, t: real)
    requires t > 0.0
    ensures x / t + y / t == (x + y) / t
  {
  }

  /** The normalized weights are the softmax: subtracting the largest logit changes nothing. */
  lemma NormalizedIsSoftmax(c: Config, logits: seq<real>)
    requires ValidConfig(c) && c.temperature > 0.0 && |logits| > 0
    ensures IsSoftmax(c, logits, Normalized(Weights(c, logits)))
  {
    hide ValidConfig, Mass, Mul, Weights, Share, Normalized;
    var w := Weights(c, logits);
    WeightsPositive(c, logits);
    NormalizedIsDist(w);
    var p, k := Normalized(w), c.exp(At(logits, Argmax(logits)) / c.temperature);
    forall i, j | 0 <= i < |p| && 0 <= j < |p|
      ensures Mul(p[i], Share(c, logits, j)) == Mul(p[j], Share(c, logits, i))
    {
      WeightsShare(c, logits, i);
      WeightsShare(c, logits, j);
      CrossQuotient(w[i], w[j], Mass(w), k);
    }
  }

  lemma CrossQuotient(x: real, y: real, m: real, k: real)
    requires m > 0.0
    ensures Mul(x / m, Mul(y, k)) == Mul(y / m, Mul(x, k))
  {
    hide Mul;
    QuotientTimes(x, m);
    QuotientTimes(y, m);
    MulLaws(x / m, m, y / m);
    MulLaws(y / m, m, x / m);
    MulLaws(x / m, y, k);
    MulLaws(y / m, x, k);
    MulLaws(x / m, y / m, m);
    MulLaws(y / m, x / m, m);
  }

  lemma QuotientTimes(x: real, m: real)
    requires m > 0.0
    ensures Mul(x / m, m) == x
  {
  }

  lemma WeightsPositive(c: Config, logits: seq<real>)
    requires ValidConfig(c) && c.temperature > 0.0
    ensures |Weights(c, logits)| == |logits| && forall i | 0 <= i < |logits| :: Weights(c, logits)[i] > 0.0
  {
  }

  method Softmax(c: Config, logits: seq<real>) returns (p: seq<real>)
    requires ValidConfig(c) && c.temperature > 0.0 && |logits| > 0
    ensures IsSoftmax(c, logits, p)
  {
    hide ValidConfig;
    var w := Weights(c, logits);
    var sum := 0.0;
    for i := 0 to |w|
      invariant sum == SumTo((j: nat) => At(w, j), i)
    {
      sum := sum + w[i];
    }
    WeightsPositive(c, logits);
    NormalizedIsDist(w);
    NormalizedIsSoftmax(c, logits);
    p := seq(|w|, i requires 0 <= i < |w| => w[i] / sum);
    assert p == Normalized(w);
  }

  /** What tokens are drawn from: greedy, the largest penalized logit; otherwise a top-p nucleus of the softmax, or
      all of it. */
  ghost predicate IsDistributionOf(c: Config, logits: seq<real>, recent: seq<nat>, r: seq<real>) {
    var l := Penalized(c, logits, recent);
    if c.temperature <= 0.0 then r == OneHot(|logits|, Largest(l))
    else AllFinite(l) && exists p: seq<real> :: IsSoftmax(c, Values(l), p) && FromSoftmax(c, p, r)
  }

  ghost predicate FromSoftmax(c: Config, p: seq<real>, r: seq<real>) {
    if c.topP >= 1.0 then r == p else IsNucleus(p, if c.topP < 0.0 then 0.0 else c.topP, r)
  }

  /** The tokens that were kept. */
  ghost function Kept(r: seq<real>): set<nat> {
    set i: nat | i < |r| && r[i] > 0.0
  }

  /** The probability the kept tokens had before the others were dropped. */
  function KeptMass(p: seq<real>, r: seq<real>): real {
    SumTo((i: nat) => if At(r, i) > 0.0 then At(p, i) else 0.0, |p|)
  }

  /** A nucleus in full: the kept tokens reach the threshold together, no fewer tokens do, nothing dropped is likelier
      than anything kept, and what was kept is divided by its mass. */
  ghost predicate NucleusLaw(p: seq<real>, top: real, r: seq<real>) {
    && |r| == |p| && IsDist(r) && KeptMass(p, r) >= top
    && (forall i | 0 <= i < |p| :: Mul(r[i], KeptMass(p, r)) == if r[i] > 0.0 then p[i] else 0.0)
    && (forall i, j | 0 <= i < |p| && 0 <= j < |p| && r[i] == 0.0 < r[j] :: p[i] <= p[j])
    && (forall s: seq<nat> | 1 <= |s| < |Kept(r)| && Distinct(s) && (forall x | 0 <= x < |s| :: s[x] < |p|) ::
          SumOver((x: nat) => At(p, x), s) < top)
  }

  lemma NucleusExactly(p: seq<real>, top: real, r: seq<real>)
    requires IsDist(p) && IsNucleus(p, top, r) && forall i | 0 <= i < |p| :: p[i] > 0.0
    ensures NucleusLaw(p, top, r)
  {
    hide TopK, Renormalized, Shortest, PrefixMass, IsDist;
    var o, keep :| NucleusBy(p, top, r, o, keep);
    ShortestKeep(p, o, top, keep);
    NucleusMassPositive(p, o, keep, keep);
    RenormalizedIsDist(p, o, keep);
    RenormalizedLength(p, o, keep);
    RenormalizedEntries(p, o, keep);
    KeptMassIs(p, r, PrefixMass(p, o, keep));
    KeptTokens(p, o, keep, r);
    forall s: seq<nat> | 1 <= |s| < |Kept(r)| && Distinct(s) && (forall x | 0 <= x < |s| :: s[x] < |p|)
      ensures SumOver((x: nat) => At(p, x), s) < top
    {
      NucleusIsSmallest(p, top, r, o, keep, s);
    }
  }

  lemma RenormalizedEntries(p: seq<real>, o: seq<nat>, keep: nat)
    requires TopK(p, o, keep) && PrefixMass(p, o, keep) > 0.0 && forall i | 0 <= i < |p| :: p[i] > 0.0
    ensures |Renormalized(p, o, keep)| == |p|
    ensures forall i | 0 <= i < |p| ::
              Mul(Renormalized(p, o, keep)[i], PrefixMass(p, o, keep)) == if i in o[..keep] then p[i] else 0.0
    ensures forall i | 0 <= i < |p| :: if i in o[..keep] then Renormalized(p, o, keep)[i] > 0.0
                                       else Renormalized(p, o, keep)[i] == 0.0
  {
  }

  lemma KeptMassIs(p: seq<real>, r: seq<real>, mass: real)
    requires |r| == |p| && IsDist(r)
    requires forall i | 0 <= i < |p| :: Mul(r[i], mass) == if r[i] > 0.0 then p[i] else 0.0
    ensures KeptMass(p, r) == mass
  {
    SumScale(mass, (i: nat) => At(r, i), (i: nat) => if At(r, i) > 0.0 then At(p, i) else 0.0, |p|);
    MulLaws(mass, 1.0, 0.0);
    MulLaws(1.0, mass, 0.0);
  }

  lemma KeptTokens(p: seq<real>, o: seq<nat>, keep: nat, r: seq<real>)
    requires TopK(p, o, keep) && |r| == |p|
    requires forall i | 0 <= i < |p| :: if i in o[..keep] then r[i] > 0.0 else r[i] == 0.0
    ensures |Kept(r)| == keep
    ensures forall i, j | 0 <= i < |p| && 0 <= j < |p| && r[i] == 0.0 < r[j] :: p[i] <= p[j]
  {
    ElementsCard(o[..keep]);
    assert Kept(r) == Elements(o[..keep]);
    forall i, j | 0 <= i < |p| && 0 <= j < |p| && r[i] == 0.0 < r[j] ensures p[i] <= p[j] {
      PermFinds(o, |p|, i);
      var x :| 0 <= x < |o| && o[x] == i;
      assert i !in o[..keep];
      RankOf(o, |p|, keep, x);
      assert j in o[..keep];
      var y :| 0 <= y < keep && o[..keep][y] == j;
      assert p[o[y]] >= p[o[x]];
    }
  }

  lemma NucleusIsDist(p: seq<real>, top: real, r: seq<real>)
    requires IsDist(p) && IsNucleus(p, top, r)
    ensures |r| == |p| && IsDist(r)
  {
    hide TopK, Renormalized;
    var o, keep :| NucleusBy(p, top, r, o, keep);
    RenormalizedIsDist(p, o, keep);
    RenormalizedLength(p, o, keep);
  }

  /** What is drawn from when the temperature is not positive: only the first of the largest penalized logits. */
  lemma GreedyExactly(c: Config, logits: seq<real>, recent: seq<nat>, r: seq<real>) returns (a: nat)
    requires c.temperature <= 0.0 && logits != [] && IsDistributionOf(c, logits, recent, r)
    ensures var l := Penalized(c, logits, recent);
            && |r| == |l| == |logits| && a < |r| && r[a] == 1.0 && (forall i | 0 <= i < |r| && i != a :: r[i] == 0.0)
            && (forall i | 0 <= i < |r| :: l[a].Infinite? || (l[i].Finite? && l[i].value <= l[a].value))
            && (forall i | 0 <= i < a :: l[i].Finite? && (l[a].Finite? ==> l[i].value < l[a].value))
  {
    a := Largest(Penalized(c, logits, recent));
  }

  /** What is drawn from when the temperature is positive, read off the penalized logits: a larger logit is never less
      likely, kept tokens are to each other as their exponentials, all tokens are kept when top_p is 1 or more, and
      otherwise those of the nucleus of the softmax are. */
  lemma DistributionExactly(c: Config, logits: seq<real>, recent: seq<nat>, r: seq<real>) returns (p: seq<real>)
    requires ValidConfig(c) && c.temperature > 0.0 && IsDistributionOf(c, logits, recent, r)
    ensures var l := Values(Penalized(c, logits, recent));
            && |r| == |logits| && IsSoftmax(c, l, p)
            && (if c.topP >= 1.0 then r == p else NucleusLaw(p, if c.topP < 0.0 then 0.0 else c.topP, r))
            && (forall i, j | 0 <= i < |r| && 0 <= j < |r| && l[i] < l[j] :: r[i] <= r[j])
            && (forall i, j | 0 <= i < |r| && 0 <= j < |r| && r[i] > 0.0 && r[j] > 0.0 ::
                  r[i] * c.exp(l[j] / c.temperature) == r[j] * c.exp(l[i] / c.temperature))
  {
    hide ValidConfig, IsNucleus, NucleusLaw, Penalized, IsSoftmax, SumTo, KeptMass, Mul;
    var l := Values(Penalized(c, logits, recent));
    p :| IsSoftmax(c, l, p) && FromSoftmax(c, p, r);
    SoftmaxSize(c, l, p);
    SoftmaxExactly(c, l, p);
    if c.topP < 1.0 {
      NucleusExactly(p, if c.topP < 0.0 then 0.0 else c.topP, r);
      NucleusOrder(p, if c.topP < 0.0 then 0.0 else c.topP, r);
    }
    forall i, j | 0 <= i < |r| && 0 <= j < |r| && r[i] > 0.0 && r[j] > 0.0
      ensures r[i] * c.exp(l[j] / c.temperature) == r[j] * c.exp(l[i] / c.temperature)
    {
      SoftmaxRatio(c, l, p, i, j);
      if c.topP < 1.0 { SameRatio(r[i], r[j], p[i], p[j], KeptMass(p, r), Share(c, l, i), Share(c, l, j)); }
      Product(r[i], Share(c, l, j));
      Product(r[j], Share(c, l, i));
    }
  }

  lemma SoftmaxRatio(c: Config, logits: seq<real>, p: seq<real>, i: nat, j: nat)
    requires c.temperature > 0.0 && IsSoftmax(c, logits, p) && i < |p| && j < |p|
    ensures Mul(p[i], Share(c, logits, j)) == Mul(p[j], Share(c, logits, i))
  {
  }

  lemma SameRatio(x: real, y: real, p: real, q: real, m: real, e: real, f: real)
    requires p > 0.0 && Mul(x, m) == p && Mul(y, m) == q && Mul(p, f) == Mul(q, e)
    ensures Mul(x, f) == Mul(y, e)
  {
    var a, b := Mul(x, f), Mul(y, e);
    assert m != 0.0;
    assert Mul(a, m) == Mul(b, m) by {
      hide Mul;
      MulLaws(m, x, f);
      MulLaws(m, y, e);
      MulLaws(x, m, f);
      MulLaws(y, m, e);
      MulLaws(a, m, 0.0);
      MulLaws(b, m, 0.0);
    }
    CancelNonzero(a, b, m);
  }

  lemma CancelNonzero(x: real, y: real, z: real)
    requires z != 0.0 && Mul(x, z) == Mul(y, z)
    ensures x == y
  {
    assert (x - y) * z == Mul(x, z) - Mul(y, z);
  }

  /** Dividing by the kept mass keeps the order and the ratios of what was kept. */
  lemma NucleusOrder(p: seq<real>, top: real, r: seq<real>)
    requires NucleusLaw(p, top, r) && forall i | 0 <= i < |p| :: p[i] > 0.0
    ensures |r| == |p|
    ensures forall i, j | 0 <= i < |p| && 0 <= j < |p| && p[i] < p[j] :: r[i] <= r[j]
    ensures forall i | 0 <= i < |p| && r[i] > 0.0 :: Mul(r[i], KeptMass(p, r)) == p[i]
  {
    hide NucleusLaw, KeptMass, Mul;
    NucleusEntries(p, top, r);
    var m := KeptMass(p, r);
    forall i, j | 0 <= i < |p| && 0 <= j < |p| && p[i] < p[j] ensures r[i] <= r[j] {
      if r[i] > 0.0 && r[j] > 0.0 {
        PositiveFactors(r[i], m);
        CancelLess(r[i], r[j], m);
      }
    }
  }

  lemma NucleusEntries(p: seq<real>, top: real, r: seq<real>)
    requires NucleusLaw(p, top, r)
    ensures |r| == |p| && forall i | 0 <= i < |p| :: r[i] >= 0.0
    ensures forall i | 0 <= i < |p| && r[i] > 0.0 :: Mul(r[i], KeptMass(p, r)) == p[i]
    ensures forall i, j | 0 <= i < |p| && 0 <= j < |p| && r[i] == 0.0 < r[j] :: p[i] <= p[j]
  {
    hide KeptMass, SumOver, Kept, Mass;
  }

  /** Every distribution the sampler may arrive at is one over the whole vocabulary. */
  lemma DistributionIsDist(c: Config, logits: seq<real>, recent: seq<nat>, r: seq<real>)
    requires ValidConfig(c) && logits != [] && IsDistributionOf(c, logits, recent, r)
    ensures |r| == |logits| && IsDist(r)
  {
    hide IsNucleus, Mass;
    var penalized := Penalized(c, logits, recent);
    if c.temperature <= 0.0 {
      OneHotIsDist(|logits|, Largest(penalized));
    } else {
      var p :| IsSoftmax(c, Values(penalized), p) && FromSoftmax(c, p, r);
      if c.topP < 1.0 { NucleusIsDist(p, if c.topP < 0.0 then 0.0 else c.topP, r); }
    }
  }

  /** The sampler has a distribution for all logits and texts exactly when it is greedy, or has no window, or its
      penalty is not zero. */
  lemma DefinedExactly(c: Config)
    ensures (forall l: Logits, h: seq<Token> | l != [] :: c.temperature <= 0.0 || AllFinite(Penalized(c, l, h)))
       <==> c.temperature <= 0.0 || c.lastN <= 0 || c.penalty != 0.0
  {
    hide Penalized;
    forall l: Logits, h: seq<Token> { FiniteExactly(c, l, h); }
    if c.temperature > 0.0 && c.lastN > 0 && c.penalty == 0.0 {
      ZeroPenaltyDiverges(c);
    }
  }

  /** A zero penalty and a positive logit of the newest token: no distribution is left to sample from. */
  lemma ZeroPenaltyDiverges(c: Config)
    requires c.penalty == 0.0 && c.lastN > 0
    ensures !AllFinite(Penalized(c, [1.0], [0]))
  {
    FiniteExactly(c, [1.0], [0]);
    assert Window(c, [0]) == [0];
    assert 0 in Window(c, [0]) && [1.0][0] > 0.0;
  }

  /** The server's sampler, at every temperature and top_p, however it breaks ties: what it draws from is always a
      distribution, one-hot when greedy, and it draws by inverse CDF. It is a valid sampler. */
  lemma SamplerIsValid(c: Config, dist: (Logits, seq<Token>) -> seq<real>, uniform: Rng -> real, advance: Rng -> Rng)
    requires ValidConfig(c) && forall l: Logits, h: seq<Token> | l != [] :: IsDistributionOf(c, l, h, dist(l, h))
    requires forall rng: Rng :: 0.0 <= uniform(rng) < 1.0
    ensures ValidSampler(Sampler(c.temperature <= 0.0, dist,
                                 (rng: Rng, p: seq<real>) => (Draw(p, uniform(rng)), advance(rng))))
  {
    hide IsDist, Penalized, Normalized, Weights, IsNucleus;
    var s := Sampler(c.temperature <= 0.0, dist, (rng: Rng, p: seq<real>) => (Draw(p, uniform(rng)), advance(rng)));
    forall l: Logits, h: seq<Token> | |l| > 0
      ensures |s.dist(l, h)| == |l| && IsDist(s.dist(l, h))
                && (s.greedy ==> s.dist(l, h) == OneHot(|l|, Argmax(s.dist(l, h))))
    {
      DistributionIsDist(c, l, h, dist(l, h));
      if s.greedy { ArgmaxOneHot(|l|, Largest(Penalized(c, l, h))); }
    }
    forall rng: Rng, p: seq<real> | IsDist(p) ensures s.draw(rng, p).0 < |p| {
      DrawSupport(p, uniform(rng));
    }
    forall rng: Rng, n: nat, a: nat | a < n ensures s.draw(rng, OneHot(n, a)).0 == a {
      OneHotIsDist(n, a);
      DrawSupport(OneHot(n, a), uniform(rng));
    }
  }

  /** The outcome of asking for a distribution: there are no logits; or an infinite logit makes every entry
      not a number. */
  datatype Answer = NoLogits | NotANumber | Dist(p: seq<real>)

  /** The distribution tokens are drawn from. Greedy, it is one-hot at the largest penalized logit; otherwise it is
      the top-p nucleus of the softmax, and all of the softmax when top_p is 1. Only an infinite logit leaves none to
      sample from. */
  method Distribution(c: Config, logits: seq<real>, recent: seq<nat>) returns (r: Answer)
    requires ValidConfig(c)
    ensures r.NoLogits? <==> logits == []
    ensures r.NotANumber? <==> logits != [] && c.temperature > 0.0 && !AllFinite(Penalized(c, logits, recent))
    ensures r.Dist? ==> |r.p| == |logits| && IsDist(r.p) && IsDistributionOf(c, logits, recent, r.p)
  {
    hide IsDist, TopK, Shortest, Renormalized, Penalized, IsSoftmax, ValidConfig;
    if logits == [] { return NoLogits; }
    var penalized := ApplyPenalty(c, logits, recent);
    if c.temperature <= 0.0 {
      OneHotIsDist(|logits|, Largest(penalized));
      return Dist(OneHot(|logits|, Largest(penalized)));
    }
    if !AllFinite(penalized) { return NotANumber; }
    var values := Values(penalized);
    var p := Softmax(c, values);
    SoftmaxSize(c, values, p);
    ghost var soft := p;
    var top := if c.topP < 0.0 then 0.0 else if c.topP > 1.0 then 1.0 else c.topP;
    if top < 1.0 {
      var o, keep, cumulative := FindNucleus(p, top);
      ShortestKeep(p, o, top, keep);
      p := Renormalize(p, o, keep, cumulative);
      RenormalizedLength(soft, o, keep);
      assert NucleusBy(soft, top, p, o, keep);
    }
    assert FromSoftmax(c, soft, p);
    r := Dist(p);
  }

  lemma RenormalizedLength(p: seq<real>, o: seq<nat>, keep: nat)
    ensures |Renormalized(p, o, keep)| == |p|
  {
  }

  lemma ShortestKeep(p: seq<real>, o: seq<nat>, top: real, keep: nat)
    requires Shortest(p, o, top, keep)
    ensures 1 <= keep <= |p| && PrefixMass(p, o, keep) >= top
  {
  }
}
