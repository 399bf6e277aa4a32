/**
 The shared-prefix KV cache: snapshots at block boundaries, so that prompts with a common beginning
 reuse each other's work, and the engine's classic generation loop on top of it. Keys are taken to
 be collision-free; files, evictions and restores may fail in any way the store allows.
 */
module PrefixCaching {
  import opened Bytes
  import opened Collections
  import opened Backends
  import opened Generation
  import opened DiskStore
  import opened CacheManager

  // ---- Block boundaries ----

  /** `m` is `block` added to itself some number of times. */
  predicate Multiple(block: nat, m: nat)
    requires block > 0
  {
    m == 0 || (m >= block && Multiple(block, m - block))
  }

  lemma {:induction false} MultipleExactly(block: nat, m: nat)
    requires block > 0
    ensures Multiple(block, m) <==> m % block == 0
  {
    if m >= block {
      MultipleExactly(block, m - block);
      SameRemainder(block, m);
    }
  }

  lemma SameRemainder(block: nat, m: nat)
    requires 0 < block <= m
    ensures (m - block) % block == m % block
  {
    var q, rest := m / block, m % block;
    assert m == block * q + rest;
    NextMultiple(block, q, 1);
    assert q > 0;
    assert m - block == block * (q - 1) + rest;
    QuotientUnique(m - block, block, q - 1, rest);
  }

  /** Between a multiple and the next one there is no other. */
  lemma {:induction false} NoMultipleBetween(block: nat, b: nat, m: nat)
    requires block > 0 && Multiple(block, b) && b < m < b + block
    ensures !Multiple(block, m)
  {
    if b > 0 { NoMultipleBetween(block, b - block, m - block); }
  }

  lemma {:induction false} TimesIsMultiple(block: nat, k: nat)
    requires block > 0
    ensures Multiple(block, k * block)
  {
    if k > 0 {
      TimesIsMultiple(block, k - 1);
      assert k * block == (k - 1) * block + block;
    }
  }

  /** Snapshot positions of a text of `size` tokens: every multiple of the block, and the size itself. */
  ghost predicate Boundary(block: nat, size: nat, b: nat)
    requires block > 0
  {
    0 < b <= size && (b == size || Multiple(block, b))
  }

  ghost predicate Marks(block: nat, size: nat, marks: seq<nat>)
    requires block > 0
  {
    && (forall b :: b in marks <==> Boundary(block, size, b))
    && (forall i, j | 0 <= i < j < |marks| :: marks[i] < marks[j])
  }

  /** The snapshot positions from `b` on, in order. */
  function MarksFrom(block: nat, size: nat, b: nat): seq<nat>
    requires block > 0
    decreases size - b
  {
    if b >= size then if size > 0 then [size] else [] else [b] + MarksFrom(block, size, b + block)
  }

  lemma {:induction false} MarksFromMember(block: nat, size: nat, b: nat, x: nat)
    requires block > 0 && b > 0 && Multiple(block, b)
    ensures x in MarksFrom(block, size, b) <==> Boundary(block, size, x) && (x >= b || x == size)
    decreases size - b
  {
    if b < size {
      MarksFromMember(block, size, b + block, x);
      if b < x < b + block { NoMultipleBetween(block, b, x); }
    }
  }

  ghost predicate SortedFrom(s: seq<nat>, b: nat, size: nat) {
    && (forall i | 0 <= i < |s| :: s[i] >= b || s[i] == size)
    && (forall i, j | 0 <= i < j < |s| :: s[i] < s[j])
  }

  lemma {:induction false} MarksFromSorted(block: nat, size: nat, b: nat)
    requires block > 0 && b > 0
    ensures SortedFrom(MarksFrom(block, size, b), b, size)
    decreases size - b
  {
    if b < size { MarksFromSorted(block, size, b + block); }
  }

  method Boundaries(block: nat, size: nat) returns (marks: seq<nat>)
    requires block > 0
    ensures Marks(block, size, marks)
  {
    marks := [];
    var b := block;
    while b < size
      invariant b > 0 && marks + MarksFrom(block, size, b) == MarksFrom(block, size, block)
      decreases size - b
    {
      assert marks + ([b] + MarksFrom(block, size, b + block)) == (marks + [b]) + MarksFrom(block, size, b + block);
      marks := marks + [b];
      b := b + block;
    }
    if size > 0 { marks := marks + [size]; }
    AllMarks(block, size);
  }

  lemma AllMarks(block: nat, size: nat)
    requires block > 0
    ensures Marks(block, size, MarksFrom(block, size, block))
  {
    MarksFromSorted(block, size, block);
    forall x: nat ensures x in MarksFrom(block, size, block) <==> Boundary(block, size, x) {
      MarksFromMember(block, size, block, x);
      if 0 < x < block { NoMultipleBetween(block, 0, x); }
    }
  }

  // ---- The cache ----

  /** The first `b` tokens of a text. */
  function Head(text: seq<Token>, b: nat): seq<Token> {
    if b <= |text| then text[..b] else text
  }

  ghost predicate NoCollision(key: seq<Token> -> Key, scope: iset<seq<Token>>) {
    forall a, b | a in scope && b in scope && key(a) == key(b) :: a == b
  }

  /** Whatever is stored under the key of a text in play is the snapshot of that text. */
  ghost predicate Genuine(c: Codec, key: seq<Token> -> Key, scope: iset<seq<Token>>, last: map<Key, Data>) {
    forall t | t in scope && key(t) in last :: |t| < 0x1_0000_0000 && last[key(t)] == Sealed(c, t, |t|)
  }

  lemma GenuineUpdate(c: Codec, key: seq<Token> -> Key, scope: iset<seq<Token>>, last: map<Key, Data>, text: seq<Token>)
    requires Genuine(c, key, scope, last) && NoCollision(key, scope) && text in scope && |text| < 0x1_0000_0000
    ensures Genuine(c, key, scope, last[key(text) := Sealed(c, text, |text|)])
  {
    hide Sealed;
  }

  /** The snapshot of a text in play restores it. */
  lemma GenuineRestores(c: Codec, key: seq<Token> -> Key, scope: iset<seq<Token>>, last: map<Key, Data>,
                        text: seq<Token>)
    requires ValidCodec(c) && Genuine(c, key, scope, last) && text in scope && key(text) in last
    ensures Restored(c, last[key(text)]) == Some(text)
  {
    hide Sealed, Restored, ValidCodec;
    RestoreSealed(c, text);
  }

  class PrefixCache {
    const store: Store
    const codec: Codec
    const key: seq<Token> -> Key
    const block: nat
    /** The texts in play: any set of texts no two of which share a key. */
    ghost const scope: iset<seq<Token>>

    ghost predicate Valid()
      reads this, store
    {
      && block > 0 && store.Valid() && ValidCodec(codec)
      && NoCollision(key, scope) && Genuine(codec, key, scope, store.last)
      && (forall a: seq<Token> :: |key(a)| <= LONGEST_KEY)
    }

    /** The snapshot of a text can be restored. */
    ghost predicate Has(t: seq<Token>)
      reads this, store
      requires Valid()
    {
      t in scope && key(t) in store.Contents()
    }

    /** Every beginning of a text is in play. */
    ghost predicate InScope(text: seq<Token>) {
      forall b: nat :: Head(text, b) in scope
    }

    /** Nothing fails and nothing is evicted: no budget, no faults, no two keys in one file. */
    ghost predicate Reliable() {
      && !store.faulty && store.maxBytes == 0
      && forall a, b | a in scope && b in scope && store.hash(key(a)) == store.hash(key(b)) :: a == b
    }

    /** A cache over a store that may hold anything from earlier runs and other users, as long as what it holds for a
        text in play is a snapshot of that text. */
    constructor (s: Store, c: Codec, keyOf: seq<Token> -> Key, blockTokens: int, ghost inPlay: iset<seq<Token>>)
      requires s.Valid() && ValidCodec(c) && NoCollision(keyOf, inPlay) && Genuine(c, keyOf, inPlay, s.last)
      requires forall a: seq<Token> :: |keyOf(a)| <= LONGEST_KEY
      ensures Valid() && store == s && codec == c && key == keyOf && scope == inPlay
      ensures block == if blockTokens > 1 then blockTokens else 1
    {
      store, codec, key := s, c, keyOf;
      block := if blockTokens > 1 then blockTokens else 1;
      scope := inPlay;
    }

    /** A session's snapshot goes into the same store under a key of its own; the cache stays valid,
        whatever is stored. */
    method SaveSession(sessionKey: Key, backend: Backend, n: nat)
      requires Valid() && |sessionKey| < 0x1_0000_0000 && forall t | t in scope :: key(t) != sessionKey
      modifies store`files, store`entries, store`total, store`nextRecency, store`owner, store`last, store`uses
      ensures Valid() && forall t: seq<Token> | Has(t) :: old(Has(t))
      ensures !store.faulty && store.maxBytes == 0
                && (forall t | t in scope :: store.hash(key(t)) != store.hash(sessionKey)) ==>
                forall t: seq<Token> | old(Has(t)) :: Has(t)
    {
      hide FilesOk, IndexOk, InOrder, Stored, ValidCodec, Sealed;
      var ok := StoreState(store, codec, sessionKey, backend, n);
    }

    /** Restores the snapshot of a text in play, if it can. */
    method TryLoad(text: seq<Token>, backend: Backend) returns (hit: bool)
      requires Valid() && text in scope
      modifies store`files, store`entries, store`total, store`nextRecency, store`owner, store`uses, backend`kv
      ensures Valid() && (hit ==> old(Has(text)) && backend.kv == text)
      ensures forall t: seq<Token> | Has(t) :: old(Has(t))
      ensures Reliable() ==> (hit <==> old(Has(text))) && forall t: seq<Token> | old(Has(t)) :: Has(t)
    {
      hide FilesOk, IndexOk, InOrder, Stored, ValidCodec, Genuine, Restored, Indexed;
      if key(text) in store.last { GenuineRestores(codec, key, scope, store.last, text); }
      StoredFacts(store.hash, store.files, store.owner, store.entries, store.last);
      hit := LoadState(store, codec, key(text), backend);
    }

    /** The longest boundary whose snapshot can be restored; the backend then holds exactly that much of the text. */
    method Restore(prefix: seq<Token>, marks: seq<nat>, backend: Backend) returns (restored: nat)
      requires Valid() && InScope(prefix) && Marks(block, |prefix|, marks)
      modifies store`files, store`entries, store`total, store`nextRecency, store`owner, store`uses, backend`kv
      ensures Valid()
      ensures restored <= |prefix| && (restored > 0 ==> restored in marks && backend.kv == prefix[..restored])
      ensures restored > 0 ==> old(Has(Head(prefix, restored)))
      ensures forall t: seq<Token> | Has(t) :: old(Has(t))
      ensures Reliable() ==> forall t: seq<Token> | old(Has(t)) :: Has(t)
      ensures Reliable() && restored > 0 ==> Has(Head(prefix, restored))
      ensures Reliable() ==> forall b | b in marks && b > restored :: !Has(Head(prefix, b))
    {
      hide FilesOk, IndexOk, InOrder, Stored, ValidCodec, Genuine, Marks, Multiple, Has, NoCollision;
      restored := 0;
      var i := |marks|;
      while i > 0
        invariant 0 <= i <= |marks| && Valid()
        invariant forall t: seq<Token> | Has(t) :: old(Has(t))
        invariant Reliable() ==> forall t: seq<Token> | old(Has(t)) :: Has(t)
        invariant Reliable() ==> forall j | i <= j < |marks| :: !Has(Head(prefix, marks[j]))
      {
        i := i - 1;
        MarkInRange(block, |prefix|, marks, i);
        var text := Head(prefix, marks[i]);
        var hit := TryLoad(text, backend);
        if hit {
          MarksBelow(block, |prefix|, marks, i);
          return marks[i];
        }
      }
    }

    /** Decodes the text past `restored` block by block up to `pos`, snapshotting every boundary it crosses. */
    method DecodeRest(prefix: seq<Token>, marks: seq<nat>, restored: nat, backend: Backend) returns (ok: bool, pos: nat)
      requires Valid() && InScope(prefix) && Marks(block, |prefix|, marks) && |prefix| < 0x1_0000_0000
      requires restored <= |prefix| && backend.kv == prefix[..restored]
      modifies store`files, store`entries, store`total, store`nextRecency, store`owner, store`last, store`uses, backend
      ensures Valid() && restored <= pos <= |prefix| && (ok ==> pos == |prefix| && backend.kv == prefix)
      ensures (backend.Reliable() ==> ok) && backend.failures == old(backend.failures) + (if ok then 0 else 1)
      ensures ok ==> backend.decoded == old(backend.decoded) + |prefix| - restored
      ensures forall t: seq<Token> | Has(t) :: old(Has(t)) || (|t| in marks && restored < |t| <= pos && t <= prefix)
      ensures Reliable() ==> forall t: seq<Token> | old(Has(t)) :: Has(t)
      ensures Reliable() ==> forall b | b in marks && restored < b <= pos :: Has(Head(prefix, b))
    {
      hide FilesOk, IndexOk, InOrder, Stored, ValidCodec, Genuine, Multiple, Marks, Has;
      MarksInRange(block, |prefix|, marks);
      ok, pos := true, restored;
      for i := 0 to |marks|
        invariant Valid() && restored <= pos <= |prefix| && backend.kv == prefix[..pos] && ok
        invariant backend.decoded == old(backend.decoded) + pos - restored && backend.failures == old(backend.failures)
        invariant pos == restored || (i > 0 && pos == marks[i - 1])
        invariant i > 0 ==> marks[i - 1] <= pos
        invariant forall t: seq<Token> | Has(t) :: old(Has(t)) || (|t| in marks && restored < |t| <= pos && t <= prefix)
        invariant Reliable() ==> forall t: seq<Token> | old(Has(t)) :: Has(t)
        invariant Reliable() ==> forall j | 0 <= j < i && marks[j] > restored :: Has(Head(prefix, marks[j]))
      {
        var b := marks[i];
        if b > restored {
          assert b in marks && (i > 0 ==> marks[i - 1] < b);
          ok := DecodeBlock(prefix, pos, b, backend);
          if !ok { return; }
          pos := b;
        }
      }
      MarksEnd(block, |prefix|, marks);
      assert prefix[..|prefix|] == prefix;
    }

    /** Decodes the text up to the next boundary and snapshots it. */
    method DecodeBlock(prefix: seq<Token>, pos: nat, b: nat, backend: Backend) returns (ok: bool)
      requires Valid() && InScope(prefix) && |prefix| < 0x1_0000_0000 && pos <= b <= |prefix|
                 && backend.kv == prefix[..pos]
      modifies store`files, store`entries, store`total, store`nextRecency, store`owner, store`last, store`uses, backend
      ensures Valid() && (backend.Reliable() ==> ok) && (ok ==> backend.kv == prefix[..b])
      ensures backend.failures == old(backend.failures) + (if ok then 0 else 1)
      ensures ok ==> backend.decoded == old(backend.decoded) + b - pos
      ensures forall t: seq<Token> | Has(t) && t != prefix[..b] :: old(Has(t))
      ensures Reliable() ==> forall t: seq<Token> | old(Has(t)) :: Has(t)
      ensures ok && Reliable() ==> Has(Head(prefix, b))
      ensures !ok ==> forall t: seq<Token> | Has(t) :: old(Has(t))
    {
      hide FilesOk, IndexOk, InOrder, Stored, ValidCodec, Genuine, Has;
      var logits;
      ok, logits := backend.DecodeAppend(prefix[pos..b]);
      if !ok { return; }
      assert prefix[..pos] + prefix[pos..b] == prefix[..b] == Head(prefix, b);
      Snapshot(Head(prefix, b), backend);
    }

    /** Stores the backend's text under its key; reliable or not, no other text becomes restorable. */
    method Snapshot(text: seq<Token>, backend: Backend)
      requires Valid() && backend.kv == text && text in scope && |text| < 0x1_0000_0000
      modifies store`files, store`entries, store`total, store`nextRecency, store`owner, store`last, store`uses
      ensures Valid()
      ensures forall t: seq<Token> | Has(t) && t != text :: old(Has(t))
      ensures Reliable() ==> Has(text) && forall t: seq<Token> | old(Has(t)) :: Has(t)
    {
      hide FilesOk, IndexOk, InOrder, Stored, ValidCodec, Genuine;
      GenuineUpdate(codec, key, scope, store.last, text);
      var ok := StoreState(store, codec, key(text), backend, |text|);
    }

    /** Every text whose snapshot can be restored. */
    ghost function Snapshots(): iset<seq<Token>>
      reads this, store
      requires Valid()
    {
      iset t: seq<Token> | Has(t)
    }

    /** Leaves the backend holding exactly `prefix`, whatever the store lost or refused. What it returns was restored
        from a snapshot, and only the rest was decoded. With a reliable store the longest boundary stored is restored,
        and every later one is stored afterwards. */
    method Prefill(prefix: seq<Token>, backend: Backend) returns (ok: bool, restored: nat)
      requires Valid() && InScope(prefix) && |prefix| < 0x1_0000_0000
      modifies store`files, store`entries, store`total, store`nextRecency, store`owner, store`last, store`uses, backend
      ensures Valid() && restored <= |prefix| && (ok ==> backend.kv == prefix) && (backend.Reliable() ==> ok)
      ensures backend.failures == old(backend.failures) + (if ok then 0 else 1)
      ensures restored > 0 ==> Head(prefix, restored) in old(Snapshots())
      ensures ok ==> backend.decoded == old(backend.decoded) + |prefix| - restored
      ensures forall t | t in Snapshots() :: t in old(Snapshots()) || (Boundary(block, |prefix|, |t|) && t <= prefix)
      ensures Reliable() && ok ==>
                forall b: nat | Boundary(block, |prefix|, b) && b >= restored :: Head(prefix, b) in Snapshots()
      ensures Reliable() ==> forall b: nat | Boundary(block, |prefix|, b) && Head(prefix, b) in old(Snapshots()) ::
                b <= restored
      ensures Reliable() ==> old(Snapshots()) <= Snapshots()
      ensures Reliable() && BlockClosed(block, old(Snapshots())) ==> BlockClosed(block, Snapshots())
      ensures Reliable() && BlockClosed(block, old(Snapshots())) && ok ==>
                forall b: nat | Boundary(block, |prefix|, b) :: Head(prefix, b) in Snapshots()
    {
      hide FilesOk, IndexOk, InOrder, Stored, ValidCodec, Genuine, Has, Multiple, BlockClosed;
      if prefix == [] {
        backend.Reset();
        return true, 0;
      }
      ghost var before := Snapshots();
      var marks := Boundaries(block, |prefix|);
      restored := Restore(prefix, marks, backend);
      if restored == 0 { backend.Reset(); }
      var pos;
      ok, pos := DecodeRest(prefix, marks, restored, backend);
      if Reliable() && BlockClosed(block, before) {
        ClosedAfter(block, before, Snapshots(), prefix, restored, pos);
      }
    }
  }

  /** With every snapshot, the store also has its block-multiple prefixes. */
  ghost predicate BlockClosed(block: nat, snaps: iset<seq<Token>>)
    requires block > 0
  {
    forall t: seq<Token>, m: nat | t in snaps && 0 < m <= |t| && Multiple(block, m) :: Head(t, m) in snaps
  }

  /** Restoring one boundary and snapshotting every later one keeps the snapshots closed. */
  lemma ClosedAfter(block: nat, before: iset<seq<Token>>, after: iset<seq<Token>>, prefix: seq<Token>, restored: nat,
                    pos: nat)
    requires block > 0 && BlockClosed(block, before) && before <= after && restored <= pos <= |prefix|
    requires restored > 0 ==> Boundary(block, |prefix|, restored) && Head(prefix, restored) in before
    requires forall t | t in after && t !in before :: Boundary(block, |prefix|, |t|) && |t| <= pos && t <= prefix
    requires forall b: nat | Boundary(block, |prefix|, b) && restored < b <= pos :: Head(prefix, b) in after
    ensures BlockClosed(block, after)
    ensures forall b: nat | Boundary(block, |prefix|, b) && b <= pos :: Head(prefix, b) in after
  {
    forall b: nat | Boundary(block, |prefix|, b) && b <= pos ensures Head(prefix, b) in after {
      if b < restored {
        assert Head(Head(prefix, restored), b) == Head(prefix, b);
      }
    }
    forall t: seq<Token>, m: nat | t in after && 0 < m <= |t| && Multiple(block, m) ensures Head(t, m) in after {
      if t in before {
        assert Head(t, m) in before;
      } else {
        assert Head(t, m) == Head(prefix, m);
        assert Boundary(block, |prefix|, m);
      }
    }
  }

  lemma FloorBelow(block: nat, l: nat)
    requires block > 0
    ensures 0 <= (l / block) * block <= l
  {
  }

  lemma SharedHead(block: nat, p: seq<Token>, q: seq<Token>, l: nat, m: nat)
    requires block > 0 && l <= |p| && l <= |q| && p[..l] == q[..l] && m <= l && Multiple(block, m)
    ensures m > 0 ==> Boundary(block, |p|, m) && Boundary(block, |q|, m)
    ensures Head(q, m) == Head(p, m)
  {
    hide Multiple;
    assert p[..m] == p[..l][..m] && q[..m] == q[..l][..m];
  }

  /** Two prompts that share their first `l` tokens share every block of them. */
  lemma SharedBlocks(block: nat, p: seq<Token>, q: seq<Token>, l: nat)
    requires block > 0 && l <= |p| && l <= |q| && p[..l] == q[..l]
    ensures var m := (l / block) * block;
            m <= l && (m > 0 ==> Boundary(block, |p|, m) && Boundary(block, |q|, m) && Head(q, m) == Head(p, m))
  {
    TimesIsMultiple(block, l / block);
    FloorBelow(block, l);
    SharedHead(block, p, q, l, (l / block) * block);
  }

  /** After one prompt was prefilled, the backend having decoded `first` tokens, another that shares its first `l`
      tokens restores all of their whole blocks, and decodes no more than the rest. */
  method PrefillBoth(cache: PrefixCache, p: seq<Token>, q: seq<Token>, l: nat, backend: Backend)
    returns (ok: bool, restored: nat, ghost first: nat)
    requires cache.Valid() && cache.Reliable() && BlockClosed(cache.block, cache.Snapshots())
    requires cache.InScope(p) && cache.InScope(q)
    requires |p| < 0x1_0000_0000 && |q| < 0x1_0000_0000 && l <= |p| && l <= |q| && p[..l] == q[..l]
    modifies cache, cache.store, backend
    ensures cache.Valid() && BlockClosed(cache.block, cache.Snapshots())
    ensures ok ==> backend.kv == q && restored >= (l / cache.block) * cache.block
    ensures ok ==> first - old(backend.decoded) <= |p|
    ensures ok ==> backend.decoded - first == |q| - restored <= |q| - (l / cache.block) * cache.block
    ensures backend.Reliable() ==> ok
  {
    hide BlockClosed, FilesOk, IndexOk, InOrder, Stored, Genuine, ValidCodec, Multiple;
    SharedBlocks(cache.block, p, q, l);
    var fromStore;
    ok, fromStore := cache.Prefill(p, backend);
    first, restored := backend.decoded, 0;
    if ok { ok, restored := cache.Prefill(q, backend); }
  }

  lemma MarkInRange(block: nat, size: nat, marks: seq<nat>, i: nat)
    requires block > 0 && Marks(block, size, marks) && i < |marks|
    ensures 0 < marks[i] <= size && marks[i] in marks
  {
    assert marks[i] in marks;
    assert Boundary(block, size, marks[i]);
  }

  lemma MarksInRange(block: nat, size: nat, marks: seq<nat>)
    requires block > 0 && Marks(block, size, marks)
    ensures forall b | b in marks :: 0 < b <= size
    ensures forall i, j | 0 <= i < j < |marks| :: marks[i] < marks[j]
  {
    assert forall b | b in marks :: Boundary(block, size, b);
  }

  /** The last mark is the size itself. */
  lemma MarksEnd(block: nat, size: nat, marks: seq<nat>)
    requires block > 0 && Marks(block, size, marks)
    ensures size > 0 ==> marks != [] && marks[|marks| - 1] == size
    ensures size == 0 ==> marks == []
  {
    if size > 0 {
      assert Boundary(block, size, size);
      MarkInRange(block, size, marks, |marks| - 1);
    } else if marks != [] {
      MarkInRange(block, size, marks, 0);
      assert false;
    }
  }

  /** A mark greater than another comes after it. */
  lemma MarksBelow(block: nat, size: nat, marks: seq<nat>, i: nat)
    requires block > 0 && Marks(block, size, marks) && i < |marks|
    ensures forall b | b in marks && b > marks[i] :: exists j | i < j < |marks| :: marks[j] == b
  {
    forall b | b in marks && b > marks[i] ensures exists j | i < j < |marks| :: marks[j] == b {
      var j :| 0 <= j < |marks| && marks[j] == b;
      assert j > i;
    }
  }

  // ---- The classic generation loop ----

  /** The engine's sequential loop, with or without a prefix cache: it delivers exactly the reference run, whatever
      the cache did; if the backend fails midway, a prefix of it. */
  method GenerateClassic(backend: Backend, cache: PrefixCache?, g: Request, prompt: seq<Token>, rng0: Rng)
    returns (outcome: Outcome, out: seq<Token>, restored: nat)
    requires g.net == backend.net && |prompt| < 0x1_0000_0000
    requires cache != null ==> cache.Valid() && cache.InScope(prompt)
    modifies backend, if cache == null then {} else {cache, cache.store}
    ensures cache != null ==> cache.Valid()
    ensures outcome.Rejected? <==> prompt == [] || |prompt| > g.net.nCtx
    ensures backend.Reliable() ==> !outcome.BackendFailed?
    ensures backend.failures == old(backend.failures) + (if outcome.BackendFailed? then 1 else 0)
    ensures outcome.Completed? ==> backend.decoded <= old(backend.decoded) + |prompt| - restored + |out|
    ensures cache == null ==> restored == 0
    ensures cache != null && restored > 0 ==> Head(prompt, restored) in old(cache.Snapshots())
    ensures cache != null && cache.Reliable() && outcome.Completed? ==>
              forall b: nat | Boundary(cache.block, |prompt| - 1, b) && Head(prompt, b) in old(cache.Snapshots()) ::
                b <= restored
    ensures outcome.Completed? ==> out == ClassicFrom(g, prompt, [], rng0)
    ensures outcome.BackendFailed? ==> out <= ClassicFrom(g, prompt, [], rng0)
  {
    hide FilesOk, IndexOk, InOrder, Stored, Genuine, ValidCodec, BlockClosed, Multiple;
    out, restored := [], 0;
    if prompt == [] || |prompt| > g.net.nCtx { return Rejected, out, restored; }
    ClassicExtends(g, prompt, [], rng0);
    var ok, logits;
    ok, logits, restored := LoadPrompt(backend, cache, prompt);
    if !ok { return BackendFailed, out, restored; }
    var rng := rng0;
    assert prompt + [] == prompt;
    while |out| < g.maxTokens
      invariant cache != null ==> cache.Valid()
      invariant backend.decoded <= old(backend.decoded) + |prompt| - restored + |out|
                  && backend.failures == old(backend.failures)
      invariant |out| < g.maxTokens ==> backend.kv == prompt + out && logits == g.net.logits(prompt + out)
      invariant ClassicFrom(g, prompt, out, rng) == ClassicFrom(g, prompt, [], rng0)
      decreases g.maxTokens - |out|
    {
      var (next, rng') := Sample(g.sampler, rng, logits, prompt + out);
      if g.net.eog(next) { break; }
      out := out + [next];
      if !g.keepGoing(out) { break; }
      if |prompt| + |out| >= g.net.nCtx { break; }
      if |out| >= g.maxTokens { break; }
      rng := rng';
      ClassicExtends(g, prompt, out, rng);
      ok, logits := backend.DecodeAppend([next]);
      if !ok { return BackendFailed, out, restored; }
      assert backend.kv == prompt + out;
    }
    outcome := Completed;
  }

  /** Prefills the prompt: through the cache all but its last token, which is always decoded fresh; without one, all
      of it. */
  method LoadPrompt(backend: Backend, cache: PrefixCache?, prompt: seq<Token>)
    returns (ok: bool, logits: Logits, restored: nat)
    requires 0 < |prompt| < 0x1_0000_0000 && (cache != null ==> cache.Valid() && cache.InScope(prompt))
    modifies backend, if cache == null then {} else {cache, cache.store}
    ensures cache != null ==> cache.Valid()
    ensures ok ==> backend.kv == prompt && logits == backend.net.logits(prompt)
    ensures backend.Reliable() ==> ok
    ensures restored < |prompt| && backend.failures == old(backend.failures) + (if ok then 0 else 1)
    ensures ok ==> backend.decoded == old(backend.decoded) + |prompt| - restored
    ensures cache == null ==> restored == 0
    ensures cache != null && restored > 0 ==> Head(prompt, restored) in old(cache.Snapshots())
    ensures cache != null && cache.Reliable() ==>
              forall b: nat | Boundary(cache.block, |prompt| - 1, b) && Head(prompt, b) in old(cache.Snapshots()) ::
                b <= restored
  {
    hide FilesOk, IndexOk, InOrder, Indexed, Stored, Genuine, ValidCodec, BlockClosed, Multiple, NoCollision;
    logits, restored := [], 0;
    var n := |prompt| - 1;
    if cache != null {
      HeadOfHead(prompt, n);
      ok, restored := cache.Prefill(prompt[..n], backend);
      if !ok { return; }
      assert prompt[..n] + [prompt[n]] == prompt;
      ok, logits := backend.DecodeAppend([prompt[n]]);
    } else {
      backend.Reset();
      ok, logits := backend.DecodeAppend(prompt);
    }
  }

  lemma HeadOfHead(text: seq<Token>, n: nat)
    requires n <= |text|
    ensures forall b: nat :: Head(text[..n], b) == Head(text, if b <= n then b else n)
  {
  }

  lemma {:induction false} ClassicExtends(g: Request, prompt: seq<Token>, out: seq<Token>, rng: Rng)
    ensures out <= ClassicFrom(g, prompt, out, rng)
    decreases g.maxTokens - |out|
  {
    if |out| < g.maxTokens {
      var (t, rng') := Next(g, rng, prompt + out);
      if |out| + 1 < g.maxTokens { ClassicExtends(g, prompt, out + [t], rng'); }
    }
  }
}
