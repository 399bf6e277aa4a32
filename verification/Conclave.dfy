/**
 The conclave: n candidates answer the same prompt, each finished one deposits the final number of its
 answer, and as soon as one number holds an absolute majority the others are stopped. `number` maps a
 text to its final number, empty if it has none; it may be any function. Deposits happen one at a
 time, in any order.
 */
module Conclave {
  import opened Collections

  type Text = string

  // ---- The full election ----

  /** How many of the first `k` candidates end in the number `v`. */
  function Votes(number: Text -> Text, texts: seq<Text>, v: Text, k: nat): nat
    requires k <= |texts|
  {
    if k == 0 then 0 else Votes(number, texts, v, k - 1) + if number(texts[k - 1]) == v then 1 else 0
  }

  function AllVotes(number: Text -> Text, texts: seq<Text>, v: Text): nat {
    Votes(number, texts, v, |texts|)
  }

  /** How many of the first `k` candidates end in a number at all. */
  function Numeric(number: Text -> Text, texts: seq<Text>, k: nat): nat
    requires k <= |texts|
  {
    if k == 0 then 0 else Numeric(number, texts, k - 1) + if number(texts[k - 1]) != "" then 1 else 0
  }

  /** The candidates that end in the number `v`. */
  ghost function Voters(number: Text -> Text, texts: seq<Text>, v: Text): set<nat> {
    set i: nat | i < |texts| && number(texts[i]) == v
  }

  /** The votes for a number are the candidates that end in it. */
  lemma {:induction false} VotesAreVoters(number: Text -> Text, texts: seq<Text>, v: Text)
    ensures AllVotes(number, texts, v) == |Voters(number, texts, v)|
  {
    if texts == [] {
      assert Voters(number, texts, v) == {};
    } else {
      var n := |texts| - 1;
      var init := texts[..n];
      VotesAreVoters(number, init, v);
      VotesOfInit(number, texts, v, n, n);
      assert Voters(number, texts, v) == Voters(number, init, v) + if number(texts[n]) == v then {n} else {};
    }
  }

  lemma {:induction false} VotesOfInit(number: Text -> Text, texts: seq<Text>, v: Text, n: nat, k: nat)
    requires k <= n <= |texts|
    ensures Votes(number, texts[..n], v, k) == Votes(number, texts, v, k)
    ensures Numeric(number, texts[..n], k) == Numeric(number, texts, k)
  {
    if k > 0 { VotesOfInit(number, texts, v, n, k - 1); }
  }

  /** The numeric candidates are those without an empty number. */
  lemma {:induction false} NumericAreOthers(number: Text -> Text, texts: seq<Text>, k: nat)
    requires k <= |texts|
    ensures Numeric(number, texts, k) == k - Votes(number, texts, "", k)
  {
    if k > 0 { NumericAreOthers(number, texts, k - 1); }
  }

  /** How many candidates end in a number. */
  lemma NumericExactly(number: Text -> Text, texts: seq<Text>)
    ensures Numeric(number, texts, |texts|) == |set i: nat | i < |texts| && number(texts[i]) != ""|
  {
    var none := Voters(number, texts, "");
    var some := set i: nat | i < |texts| && number(texts[i]) != "";
    NumericAreOthers(number, texts, |texts|);
    VotesAreVoters(number, texts, "");
    assert some == UpTo(|texts|) - none && none <= UpTo(|texts|);
  }

  lemma {:induction false} VotesAreNumeric(number: Text -> Text, texts: seq<Text>, v: Text, k: nat)
    requires k <= |texts| && v != ""
    ensures Votes(number, texts, v, k) <= Numeric(number, texts, k) <= k
  {
    if k > 0 { VotesAreNumeric(number, texts, v, k - 1); }
  }

  /** Two different numbers share the candidates between them. */
  lemma {:induction false} VotesAreDisjoint(number: Text -> Text, texts: seq<Text>, v: Text, w: Text, k: nat)
    requires k <= |texts| && v != w
    ensures Votes(number, texts, v, k) + Votes(number, texts, w, k) <= k
  {
    if k > 0 { VotesAreDisjoint(number, texts, v, w, k - 1); }
  }

  lemma {:induction false} VoterExists(number: Text -> Text, texts: seq<Text>, v: Text, k: nat)
    requires k <= |texts| && Votes(number, texts, v, k) > 0
    ensures exists i | 0 <= i < k :: number(texts[i]) == v
  {
    if number(texts[k - 1]) != v { VoterExists(number, texts, v, k - 1); }
  }

  /** The medoid: the first answer most similar, in sum, to the others. */
  method Elect(similarity: (Text, Text) -> real, texts: seq<Text>) returns (best: nat)
    requires forall a: Text, b: Text :: similarity(a, b) >= 0.0
    ensures if |texts| < 2 then best == 0 else Medoid(similarity, texts, best)
  {
    best := 0;
    if |texts| < 2 { return; }
    var bestScore := -1.0;
    for i := 0 to |texts|
      invariant best < |texts| && (i == 0 ==> best == 0 && bestScore == -1.0)
      invariant i > 0 ==> best < i && bestScore == Score(similarity, texts, best, |texts|)
      invariant forall x | 0 <= x < i :: Score(similarity, texts, x, |texts|) <= bestScore
      invariant forall x | 0 <= x < best :: Score(similarity, texts, x, |texts|) < bestScore
    {
      var score := 0.0;
      for j := 0 to |texts|
        invariant score == Score(similarity, texts, i, j) >= 0.0
      {
        if i != j { score := score + similarity(texts[i], texts[j]); }
      }
      if score > bestScore {
        bestScore := score;
        best := i;
      }
    }
  }

  function Score(similarity: (Text, Text) -> real, texts: seq<Text>, i: nat, k: nat): real
    requires i < |texts| && k <= |texts|
  {
    if k == 0 then 0.0
    else Score(similarity, texts, i, k - 1) + if i != k - 1 then similarity(texts[i], texts[k - 1]) else 0.0
  }

  /** The score of an answer is its similarity to each of the others, whichever is counted first: taking out any other
      answer takes out its similarity, and an answer alone scores nothing. */
  lemma ScoreWithout(similarity: (Text, Text) -> real, texts: seq<Text>, i: nat, j: nat)
    requires i < |texts| && j < |texts| && i != j
    ensures var rest, at := texts[..j] + texts[j + 1..], if i < j then i else i - 1;
            && at < |rest| && rest[at] == texts[i]
            && Score(similarity, texts, i, |texts|)
            == similarity(texts[i], texts[j]) + Score(similarity, rest, at, |rest|)
    ensures forall t: Text :: Score(similarity, [t], 0, 1) == 0.0
  {
    ScoreBefore(similarity, texts, i, j, j);
    ScorePast(similarity, texts, i, j, |texts|);
    forall t: Text ensures Score(similarity, [t], 0, 1) == 0.0 {
      assert Score(similarity, [t], 0, 0) == 0.0;
    }
  }

  lemma {:induction false} ScoreBefore(similarity: (Text, Text) -> real, texts: seq<Text>, i: nat, j: nat, k: nat)
    requires i < |texts| && j < |texts| && i != j && k <= j
    ensures var rest, at := texts[..j] + texts[j + 1..], if i < j then i else i - 1;
            Score(similarity, texts, i, k) == Score(similarity, rest, at, k)
  {
    if k > 0 { ScoreBefore(similarity, texts, i, j, k - 1); }
  }

  lemma {:induction false} ScorePast(similarity: (Text, Text) -> real, texts: seq<Text>, i: nat, j: nat, k: nat)
    requires i < |texts| && j < k <= |texts| && i != j
    ensures var rest, at := texts[..j] + texts[j + 1..], if i < j then i else i - 1;
            Score(similarity, texts, i, k) == similarity(texts[i], texts[j]) + Score(similarity, rest, at, k - 1)
  {
    if k == j + 1 {
      ScoreBefore(similarity, texts, i, j, j);
    } else {
      ScorePast(similarity, texts, i, j, k - 1);
      assert (texts[..j] + texts[j + 1..])[k - 2] == texts[k - 1];
    }
  }

  /** Exchanging two of the other answers does not change a score. */
  lemma ScoreSwapped(similarity: (Text, Text) -> real, texts: seq<Text>, i: nat, x: nat, y: nat)
    requires i < |texts| && x < |texts| && y < |texts| && i != x && i != y
    ensures Score(similarity, texts[x := texts[y]][y := texts[x]], i, |texts|) == Score(similarity, texts, i, |texts|)
  {
    if x != y {
      ScoreReplaced(similarity, texts, i, x, texts[y], |texts|);
      ScoreReplaced(similarity, texts[x := texts[y]], i, y, texts[x], |texts|);
    } else {
      assert texts[x := texts[y]][y := texts[x]] == texts;
    }
  }

  lemma {:induction false} ScoreReplaced(similarity: (Text, Text) -> real, texts: seq<Text>, i: nat, j: nat, t: Text,
                                         k: nat)
    requires i < |texts| && j < |texts| && i != j && k <= |texts|
    ensures Score(similarity, texts[j := t], i, k)
         == Score(similarity, texts, i, k)
            + if j < k then similarity(texts[i], t) - similarity(texts[i], texts[j]) else 0.0
  {
    if k > 0 { ScoreReplaced(similarity, texts, i, j, t, k - 1); }
  }

  /** No answer is closer to the others, and every earlier one is farther from them. */
  ghost predicate Medoid(similarity: (Text, Text) -> real, texts: seq<Text>, best: nat) {
    && best < |texts|
    && (forall i | 0 <= i < |texts| :: Score(similarity, texts, i, |texts|) <= Score(similarity, texts, best, |texts|))
    && (forall i | 0 <= i < best :: Score(similarity, texts, i, |texts|) < Score(similarity, texts, best, |texts|))
  }

  /** No number has more votes than that of `best`, and every number carried before it has fewer. */
  ghost predicate Plurality(number: Text -> Text, texts: seq<Text>, best: nat) {
    && best < |texts| && number(texts[best]) != ""
    && (forall i | 0 <= i < |texts| && number(texts[i]) != "" ::
          AllVotes(number, texts, number(texts[i])) <= AllVotes(number, texts, number(texts[best])))
    && (forall i | 0 <= i < best && number(texts[i]) != "" ::
          AllVotes(number, texts, number(texts[i])) < AllVotes(number, texts, number(texts[best])))
  }

  /** The one candidate the full election elects. */
  ghost predicate Elected(number: Text -> Text, similarity: (Text, Text) -> real, texts: seq<Text>, best: nat) {
    if |texts| < 2 then best == 0
    else if Numeric(number, texts, |texts|) * 2 >= |texts| && HasPair(number, texts) then Plurality(number, texts, best)
    else Medoid(similarity, texts, best)
  }

  /** The numeric election: the first carrier of the most frequent number, provided at least half the candidates end
      in a number and the winner has two votes; otherwise the medoid. */
  method ElectNumeric(number: Text -> Text, similarity: (Text, Text) -> real, texts: seq<Text>) returns (best: nat)
    requires forall a: Text, b: Text :: similarity(a, b) >= 0.0
    ensures Elected(number, similarity, texts, best)
  {
    best := 0;
    if |texts| < 2 { return; }
    var numeric := 0;
    for i := 0 to |texts|
      invariant numeric == Numeric(number, texts, i)
    {
      if number(texts[i]) != "" { numeric := numeric + 1; }
    }
    if numeric * 2 >= |texts| {
      var winner: nat, bestVotes: nat := |texts|, 1;
      for i := 0 to |texts|
        invariant winner <= |texts| && bestVotes >= 1 && (winner == |texts| ==> bestVotes == 1)
        invariant winner < |texts| ==>
                    number(texts[winner]) != "" && bestVotes == AllVotes(number, texts, number(texts[winner]))
        invariant forall x | 0 <= x < i && number(texts[x]) != "" ::
                    AllVotes(number, texts, number(texts[x])) <= bestVotes
        invariant winner < |texts| ==> winner < i && bestVotes >= 2
        invariant winner < |texts| ==>
                    forall x | 0 <= x < winner && number(texts[x]) != "" ::
                        AllVotes(number, texts, number(texts[x])) < bestVotes
      {
        if number(texts[i]) != "" {
          var votes := 0;
          for j := 0 to |texts|
            invariant votes == Votes(number, texts, number(texts[i]), j)
          {
            if number(texts[j]) == number(texts[i]) { votes := votes + 1; }
          }
          if votes > bestVotes {
            bestVotes := votes;
            winner := i;
          }
        }
      }
      if winner < |texts| {
        assert HasPair(number, texts);
        return winner;
      }
    }
    best := Elect(similarity, texts);
  }

  /** Some number has two carriers. */
  ghost predicate HasPair(number: Text -> Text, texts: seq<Text>) {
    exists i | 0 <= i < |texts| :: number(texts[i]) != "" && AllVotes(number, texts, number(texts[i])) >= 2
  }

  /** A number with an absolute majority wins the full election. */
  lemma MajorityWins(number: Text -> Text, texts: seq<Text>, v: Text, best: nat)
    requires |texts| >= 2 && v != "" && AllVotes(number, texts, v) * 2 > |texts| && Plurality(number, texts, best)
    ensures number(texts[best]) == v
  {
    VoterExists(number, texts, v, |texts|);
    var i :| 0 <= i < |texts| && number(texts[i]) == v;
    if number(texts[best]) != v { VotesAreDisjoint(number, texts, v, number(texts[best]), |texts|); }
  }

  lemma MajorityIsElectable(number: Text -> Text, texts: seq<Text>, v: Text)
    requires |texts| >= 2 && v != "" && AllVotes(number, texts, v) * 2 > |texts|
    ensures Numeric(number, texts, |texts|) * 2 >= |texts| && HasPair(number, texts)
  {
    VotesAreNumeric(number, texts, v, |texts|);
    VoterExists(number, texts, v, |texts|);
  }

  // ---- Early consensus ----

  /** Votes for `v` among the first `k` candidates, counting only those in `s`. */
  ghost function VotesIn(number: Text -> Text, texts: seq<Text>, v: Text, s: set<nat>, k: nat): nat
    requires k <= |texts|
  {
    if k == 0 then 0
    else VotesIn(number, texts, v, s, k - 1) + if k - 1 in s && number(texts[k - 1]) == v then 1 else 0
  }

  lemma {:induction false} VotesInAdd(number: Text -> Text, texts: seq<Text>, v: Text, s: set<nat>, i: nat, k: nat)
    requires k <= |texts| && i < |texts| && i !in s
    ensures VotesIn(number, texts, v, s + {i}, k)
         == VotesIn(number, texts, v, s, k) + if i < k && number(texts[i]) == v then 1 else 0
  {
    if k > 0 { VotesInAdd(number, texts, v, s, i, k - 1); }
  }

  /** Votes already cast are votes of any list that agrees with them. */
  lemma {:induction false} VotesInAreVotes(number: Text -> Text, texts: seq<Text>, outs: seq<Text>, v: Text,
                                           s: set<nat>, k: nat)
    requires k <= |texts| == |outs| && forall i | i in s && i < k :: outs[i] == texts[i]
    ensures VotesIn(number, texts, v, s, k) <= Votes(number, outs, v, k)
  {
    if k > 0 { VotesInAreVotes(number, texts, outs, v, s, k - 1); }
  }

  /** The shared tally of a conclave. `full` are the answers the candidates complete, or would have completed. */
  class Tally {
    const number: Text -> Text
    const n: nat
    var outs: seq<Text>
    var tally: map<Text, nat>
    var stop: bool
    var winner: int
    ghost const full: seq<Text>
    ghost var deposited: set<nat>
    ghost var voted: set<nat>

    ghost function Cast(v: Text): nat
      reads this
      requires |full| == n
    {
      VotesIn(number, full, v, voted, n)
    }

    /** Only complete answers have voted, every number's count is its votes, and a winner is set exactly when one number
        has an absolute majority of all n. */
    ghost predicate Valid()
      reads this
    {
      && 2 <= n == |outs| == |full|
      && voted <= deposited && (forall i | i in deposited :: i < n)
      && (forall i | i in voted :: outs[i] == full[i])
      && (forall v: Text | v != "" :: Cast(v) == if v in tally then tally[v] else 0)
      && (stop <==> 0 <= winner)
      && (!stop ==> voted == deposited && forall v: Text | v != "" :: Cast(v) * 2 <= n)
      && (stop ==> winner < n && winner in voted && number(full[winner]) != "" && Cast(number(full[winner])) * 2 > n)
    }

    constructor (num: Text -> Text, count: nat, ghost answers: seq<Text>)
      requires 2 <= count == |answers|
      ensures Valid() && number == num && n == count && full == answers && deposited == {} && !stop
    {
      number, n, full := num, count, answers;
      outs := seq(count, i => "");
      tally, stop, winner := map[], false, -1;
      deposited, voted := {}, {};
      new;
      forall v: Text ensures Cast(v) == 0 { NoVotes(number, full, v, n); }
    }

    /** A candidate hands its text in. One that comes after the verdict does not vote, for its text may be cut off. */
    method Deposit(i: nat, text: Text)
      requires Valid() && i < n && i !in deposited && (!stop ==> text == full[i])
      modifies this`outs, this`tally, this`stop, this`winner, this`deposited, this`voted
      ensures Valid() && deposited == old(deposited) + {i}
      ensures old(stop) ==> stop && winner == old(winner)
      ensures stop && !old(stop) ==> winner == i
    {
      outs := outs[i := text];
      deposited := deposited + {i};
      if stop { return; }
      forall v: Text { VotesInAdd(number, full, v, voted, i, n); }
      voted := voted + {i};
      var num := number(text);
      if num == "" { return; }
      var count := (if num in tally then tally[num] else 0) + 1;
      tally := tally[num := count];
      if count * 2 > n {
        winner := i;
        stop := true;
      }
    }

    /** The verdict once every candidate has come in, or enough of them: with an early winner, that one, and the votes
        reported for it are an absolute majority; otherwise the full election over all answers. */
    method Conclude(similarity: (Text, Text) -> real) returns (elected: nat, votes: nat)
      requires Valid() && (stop || forall i | 0 <= i < n :: i in deposited)
      requires forall a: Text, b: Text :: similarity(a, b) >= 0.0
      ensures elected < n
      ensures stop ==> elected == winner && votes * 2 > n && number(outs[elected]) == number(full[elected])
      ensures !stop ==> outs == full && Elected(number, similarity, full, elected)
      ensures votes == if number(outs[elected]) == "" then 1 else AllVotes(number, outs, number(outs[elected]))
    {
      if winner >= 0 {
        elected := winner;
        VotesInAreVotes(number, full, outs, number(full[winner]), voted, n);
      } else {
        elected := ElectNumeric(number, similarity, outs);
      }
      if number(outs[elected]) == "" { return elected, 1; }
      votes := 0;
      for j := 0 to |outs|
        invariant votes == Votes(number, outs, number(outs[elected]), j)
      {
        if number(outs[j]) == number(outs[elected]) { votes := votes + 1; }
      }
    }

    /** Stopping early never changes the verdict: whatever the stopped candidates would have answered, the full numeric
        election over all n complete answers elects the early winner's number. */
    method FullElection(similarity: (Text, Text) -> real, answers: seq<Text>) returns (best: nat)
      requires Valid() && stop && answers == full
      requires forall a: Text, b: Text :: similarity(a, b) >= 0.0
      ensures best < n && Elected(number, similarity, full, best) && number(full[best]) == number(outs[winner])
    {
      var v := number(outs[winner]);
      VotesInAreVotes(number, full, full, v, voted, n);
      MajorityIsElectable(number, full, v);
      best := ElectNumeric(number, similarity, answers);
      MajorityWins(number, full, v, best);
    }
  }

  lemma {:induction false} NoVotes(number: Text -> Text, texts: seq<Text>, v: Text, k: nat)
    requires k <= |texts|
    ensures VotesIn(number, texts, v, {}, k) == 0
  {
    if k > 0 { NoVotes(number, texts, v, k - 1); }
  }
}
