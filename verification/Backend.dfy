/**
 The seam to the model runtime. A network is a fixed function from token prefixes to logits; a
 backend is a network plus the tokens its KV cache currently holds. A forward pass may fail, and
 a failed pass leaves the cache in any state.
 */
module Backends {
  type Token = nat
  type Logits = seq<real>

  datatype Network = Network(logits: seq<Token> -> Logits, vocab: nat, eog: Token -> bool, eos: Token, nCtx: nat)

  ghost predicate ValidNetwork(n: Network) {
    n.vocab > 0 && forall kv: seq<Token> :: |n.logits(kv)| == n.vocab
  }

  /** Where forward passes fail: anywhere at any time, or exactly those that reach certain texts. */
  datatype Faults = Anytime | Reaching(fails: seq<Token> -> bool)

  class Backend {
    const net: Network
    const faults: Faults
    var kv: seq<Token>
    /** How many tokens forward passes have decoded, and how many passes have failed. */
    ghost var decoded: nat
    ghost var failures: nat

    constructor (n: Network, f: Faults)
      ensures net == n && faults == f && kv == []
    {
      net, faults := n, f;
      kv := [];
      decoded, failures := 0, 0;
    }

    /** Forward passes never fail. */
    ghost predicate Reliable() {
      faults.Reaching? && forall x: seq<Token> :: !faults.fails(x)
    }

    /** Clears the sequence. */
    method Reset()
      modifies this`kv
      ensures kv == []
    {
      kv := [];
    }

    /** Continues the sequence; on success yields the logits after its last token. */
    method DecodeAppend(tokens: seq<Token>) returns (ok: bool, logits: Logits)
      modifies this
      ensures ok ==> kv == old(kv) + tokens && logits == net.logits(kv)
      ensures decoded == old(decoded) + (if ok then |tokens| else 0)
                && failures == old(failures) + (if ok then 0 else 1)
      ensures faults.Reaching? ==> (ok <==> !faults.fails(old(kv) + tokens))
    {
      var fault: bool := *;
      ok := if faults.Reaching? then !faults.fails(kv + tokens) else !fault;
      if ok {
        kv := kv + tokens;
        decoded := decoded + |tokens|;
      } else {
        kv := *;
        failures := failures + 1;
      }
      logits := net.logits(kv);
    }

    /** Continues the sequence; on success yields the logits after every token of the batch. */
    method DecodeBatch(tokens: seq<Token>) returns (ok: bool, logits: seq<Logits>)
      modifies this
      ensures ok ==> kv == old(kv) + tokens && |logits| == |tokens|
      ensures ok ==> forall i | 0 <= i < |tokens| :: logits[i] == net.logits(old(kv) + tokens[..i + 1])
      ensures decoded == old(decoded) + (if ok then |tokens| else 0)
                && failures == old(failures) + (if ok then 0 else 1)
      ensures faults.Reaching? ==> (ok <==> !faults.fails(old(kv) + tokens))
    {
      var fault: bool := *;
      ok := if faults.Reaching? then !faults.fails(kv + tokens) else !fault;
      logits := [];
      if ok {
        var start := kv;
        for i := 0 to |tokens|
          invariant decoded == old(decoded) && failures == old(failures)
          invariant start == old(kv) && kv == start + tokens[..i] && |logits| == i
          invariant forall j | 0 <= j < i :: logits[j] == net.logits(start + tokens[..j + 1])
        {
          kv := kv + [tokens[i]];
          assert kv == start + tokens[..i + 1];
          logits := logits + [net.logits(kv)];
        }
        assert tokens[..|tokens|] == tokens;
        decoded := decoded + |tokens|;
      } else {
        kv := *;
        failures := failures + 1;
      }
    }

    /** Restores a snapshot that represents the first `n` positions of `tokens`. A failed restore may leave anything. */
    method SetState(tokens: seq<Token>, n: nat, mayFail: bool) returns (ok: bool)
      modifies this`kv
      ensures ok ==> kv == if n < |tokens| then tokens[..n] else tokens
      ensures !mayFail ==> ok
    {
      var fault: bool := *;
      ok := !(mayFail && fault);
      if ok {
        kv := if n < |tokens| then tokens[..n] else tokens;
      } else {
        kv := *;
      }
    }

    /** Rolls the sequence back to its first `n` positions. */
    method TruncateTo(n: nat)
      modifies this`kv
      ensures kv == if n < |old(kv)| then old(kv)[..n] else old(kv)
    {
      if n < |kv| { kv := kv[..n]; }
    }
  }
}
