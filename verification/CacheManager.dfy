/**
 Snapshots in the disk store. A snapshot of the KV is serialized, packed (compressed or not), and
 sealed in an envelope: magic, checksum of the packed bytes, number of positions, packed bytes.
 Serialization, compression and the checksum are arbitrary functions with the inverses they promise.
 */
module CacheManager {
  import opened Collections
  import opened Bytes
  import opened Backends
  import opened DiskStore

  const MAGIC: Data := [83, 86, 75, 49]

  datatype Codec = Codec(serialize: seq<Token> -> Data, deserialize: Data -> Option<seq<Token>>,
                         pack: Data -> Data, unpack: Data -> Option<Data>, checksum: Data -> nat)

  ghost predicate ValidCodec(c: Codec) {
    && (forall kv: seq<Token> :: c.deserialize(c.serialize(kv)) == Some(kv))
    && (forall d: Data :: c.unpack(c.pack(d)) == Some(d))
    && (forall d: Data :: c.checksum(d) < Pow256(8))
  }

  function Envelope(c: Codec, packed: Data, n: nat): Data {
    MAGIC + Encode(c.checksum(packed), 8) + Encode(n, 4) + packed
  }

  /** The position count and packed bytes of an envelope, if its magic and checksum are right. */
  function OpenEnvelope(c: Codec, entry: Data): Option<(nat, Data)> {
    if |entry| < 16 || entry[..4] != MAGIC then None
    else if c.checksum(entry[16..]) != Decode(entry[4..12]) then None
    else Some((Decode(entry[12..16]), entry[16..]))
  }

  lemma EnvelopeRoundTrip(c: Codec, packed: Data, n: nat)
    requires ValidCodec(c) && n < 0x1_0000_0000
    ensures OpenEnvelope(c, Envelope(c, packed, n)) == Some((n, packed))
  {
    var e := Envelope(c, packed, n);
    assert e[..4] == MAGIC;
    assert e[4..12] == Encode(c.checksum(packed), 8);
    assert e[12..16] == Encode(n, 4);
    assert e[16..] == packed;
    DecodeEncode(c.checksum(packed), 8);
    U32Range();
    DecodeEncode(n, 4);
  }

  /** Only the envelope of its contents opens: an entry that was changed, cut off or written by something else does not,
      unless its checksum is right. */
  lemma OpensExactly(c: Codec, entry: Data)
    requires ValidCodec(c)
    ensures OpenEnvelope(c, entry).Some? ==> var (n, packed) := OpenEnvelope(c, entry).value;
                                             n < 0x1_0000_0000 && entry == Envelope(c, packed, n)
  {
    if OpenEnvelope(c, entry).Some? {
      U32Range();
      EncodeDecode(entry[4..12]);
      EncodeDecode(entry[12..16]);
      assert entry == entry[..4] + entry[4..12] + entry[12..16] + entry[16..];
    }
  }

  /** The bytes stored for a text, said to represent `n` positions. */
  function Sealed(c: Codec, text: seq<Token>, n: nat): Data {
    Envelope(c, c.pack(c.serialize(text)), n)
  }

  /** The text and position count a stored entry restores, if it can be decoded at all. */
  function Unsealed(c: Codec, entry: Data): Option<(seq<Token>, nat)> {
    match OpenEnvelope(c, entry)
    case None => None
    case Some((n, packed)) =>
      match c.unpack(packed)
      case None => None
      case Some(raw) =>
        match c.deserialize(raw)
        case None => None
        case Some(text) => Some((text, n))
  }

  lemma UnsealSealed(c: Codec, text: seq<Token>, n: nat)
    requires ValidCodec(c) && n < 0x1_0000_0000
    ensures Unsealed(c, Sealed(c, text, n)) == Some((text, n))
  {
    EnvelopeRoundTrip(c, c.pack(c.serialize(text)), n);
  }

  /** What the backend holds after an entry was restored: as much of its text as it has positions. */
  function Restored(c: Codec, entry: Data): Option<seq<Token>> {
    match Unsealed(c, entry)
    case None => None
    case Some((text, n)) => Some(if n < |text| then text[..n] else text)
  }

  /** The snapshot of a whole text restores that text. */
  lemma RestoreSealed(c: Codec, text: seq<Token>)
    requires ValidCodec(c) && |text| < 0x1_0000_0000
    ensures Restored(c, Sealed(c, text, |text|)) == Some(text)
  {
    hide Sealed, Unsealed;
    UnsealSealed(c, text, |text|);
  }

  /** Snapshots the backend under a key. */
  method StoreState(store: Store, c: Codec, k: Key, backend: Backend, n: nat) returns (ok: bool)
    requires store.Valid() && |k| < 0x1_0000_0000
    modifies store`files, store`entries, store`total, store`nextRecency, store`owner, store`last, store`uses
    ensures store.Valid()
    ensures store.last == if ok then old(store.last)[k := Sealed(c, backend.kv, n)] else old(store.last)
    ensures ok ==> k in store.Contents()
    ensures !store.faulty && store.maxBytes == 0 ==> ok
    ensures forall x | x in store.Contents() && x != k :: x in old(store.Contents())
    ensures ok && store.maxBytes == 0 ==>
              forall x | x in old(store.Contents()) && store.hash(x) != store.hash(k) :: x in store.Contents()
  {
    hide Sealed, FilesOk, IndexOk, Stored, EvictedFor, EntrySize;
    ok := store.Put(k, Sealed(c, backend.kv, n));
  }

  /** Drops an entry that could not be restored. */
  method Drop(store: Store, k: Key)
    requires store.Valid()
    modifies store`files, store`entries, store`total, store`owner, store`uses
    ensures store.Valid()
    ensures forall x | x in store.Contents() :: x in old(store.Contents())
    ensures forall x | x in old(store.Contents()) && store.hash(x) != store.hash(k) :: x in store.Contents()
  {
    hide FilesOk, IndexOk, InOrder, Stored;
    StoredFacts(store.hash, store.files, store.owner, store.entries, store.last);
    var removed := store.Remove(k);
    StoredFacts(store.hash, store.files, store.owner, store.entries, store.last);
  }

  /** Restores the snapshot stored under a key. On a hit the backend holds what the last entry stored there restores;
      a miss may leave anything in the backend, and an entry that cannot be decoded is dropped. */
  method LoadState(store: Store, c: Codec, k: Key, backend: Backend) returns (hit: bool)
    requires store.Valid()
    modifies store`files, store`entries, store`total, store`nextRecency, store`owner, store`uses, backend`kv
    ensures store.Valid()
    ensures hit ==> k in old(store.Contents()) && k in store.last && Restored(c, store.last[k]) == Some(backend.kv)
    ensures hit ==> store.Contents() == old(store.Contents())
    ensures !store.faulty ==> (hit <==>
                                k in old(store.Contents()) && k in store.last && Restored(c, store.last[k]).Some?)
    ensures forall x | x in store.Contents() :: x in old(store.Contents())
    ensures forall x | x in old(store.Contents()) && store.hash(x) != store.hash(k) :: x in store.Contents()
  {
    hide Unsealed, FilesOk, IndexOk, Stored;
    StoredFacts(store.hash, store.files, store.owner, store.entries, store.last);
    var entry := store.Get(k);
    if entry.None? { return false; }
    var plain := Unsealed(c, entry.value);
    var ok := false;
    if plain.Some? { ok := backend.SetState(plain.value.0, plain.value.1, store.faulty); }
    if !ok { Drop(store, k); }
    hit := ok;
  }
}
