/**
 The LRU byte store on disk: one file per entry, named by a hash of its key, so two keys may fight
 over one file. The directory is a map from file names to contents; reads and writes may fail when
 `faulty`, and the system may refuse to remove a file when `locked`. Files that no key can be read from
 may lie in the directory as well.
 */
module DiskStore {
  import opened Collections
  import opened Bytes

  type Key = Data

  const LONGEST_KEY := 4096

  datatype Entry = Entry(path: nat, size: nat, recency: nat)

  /** File layout: key length, key, payload. */
  function FileBytes(k: Key, payload: Data): Data {
    Encode(|k|, 4) + k + payload
  }

  function EntrySize(k: Key, payload: nat): nat {
    4 + |k| + payload
  }

  /** The key a file claims to hold, if it can be read at all. */
  function StoredKey(file: Data): Option<Key> {
    if |file| < 4 || |file| < 4 + Decode(file[..4]) then None else Some(file[4..4 + Decode(file[..4])])
  }

  lemma StoredKeyOfFile(k: Key, payload: Data)
    requires |k| < 0x1_0000_0000
    ensures |FileBytes(k, payload)| == EntrySize(k, |payload|)
    ensures StoredKey(FileBytes(k, payload)) == Some(k)
    ensures FileBytes(k, payload)[4 + |k|..] == payload
  {
    U32Range();
    DecodeEncode(|k|, 4);
    var f := FileBytes(k, payload);
    assert f[..4] == Encode(|k|, 4);
    assert f[4..4 + |k|] == k;
  }

  /** A key can be read from a file exactly when the file is one written for that key. */
  lemma StoredKeyExactly(file: Data, k: Key)
    ensures StoredKey(file) == Some(k) <==>
              |k| < 0x1_0000_0000 && exists payload: Data :: file == FileBytes(k, payload)
  {
    if StoredKey(file) == Some(k) {
      U32Range();
      EncodeDecode(file[..4]);
      assert file == FileBytes(k, file[4 + |k|..]);
    }
    if payload: Data :| |k| < 0x1_0000_0000 && file == FileBytes(k, payload) { StoredKeyOfFile(k, payload); }
  }

  // ---- Sums over the index ----

  ghost function SizeSum(m: map<Key, Entry>): nat {
    if m == map[] then 0 else var k :| k in m; m[k].size + SizeSum(m - {k})
  }

  lemma {:induction false} SizeSumRemove(m: map<Key, Entry>, k: Key)
    requires k in m
    ensures SizeSum(m) == m[k].size + SizeSum(m - {k})
    decreases m
  {
    var x :| x in m && SizeSum(m) == m[x].size + SizeSum(m - {x});
    if x != k {
      SizeSumRemove(m - {x}, k);
      SizeSumRemove(m - {k}, x);
      assert m - {x} - {k} == m - {k} - {x};
    }
  }

  ghost function FileSum(files: map<nat, Data>): nat {
    if files == map[] then 0 else var h :| h in files; |files[h]| + FileSum(files - {h})
  }

  /** Every file with anything in it belongs to an entry of its own size, and different files to different entries:
      the files fit the entries. */
  lemma {:induction false} FilesFitEntries(files: map<nat, Data>, owner: map<nat, Key>, entries: map<Key, Entry>)
    requires forall h | h in files && files[h] != [] ::
               h in owner && owner[h] in entries && entries[owner[h]].path == h && entries[owner[h]].size == |files[h]|
    ensures FileSum(files) <= SizeSum(entries)
    decreases files
  {
    if files != map[] {
      var h :| h in files && FileSum(files) == |files[h]| + FileSum(files - {h});
      if files[h] == [] {
        FilesFitEntries(files - {h}, owner, entries);
      } else {
        var k := owner[h];
        SizeSumRemove(entries, k);
        forall h' | h' in files - {h} && files[h'] != [] ensures owner[h'] != k {
          assert entries[owner[h']].path == h';
        }
        FilesFitEntries(files - {h}, owner, entries - {k});
      }
    }
  }

  lemma {:induction false} SizeSumMonotone(m: map<Key, Entry>, m': map<Key, Entry>)
    requires m.Keys <= m'.Keys && forall k | k in m :: m[k] == m'[k]
    ensures SizeSum(m) <= SizeSum(m')
    decreases m
  {
    if m != map[] {
      var k :| k in m;
      SizeSumRemove(m, k);
      SizeSumRemove(m', k);
      SizeSumMonotone(m - {k}, m' - {k});
    }
  }

  // ---- Eviction ----

  ghost predicate SubMap(m: map<Key, Entry>, m': map<Key, Entry>) {
    m.Keys <= m'.Keys && forall k | k in m :: m[k] == m'[k]
  }

  /** `kept` holds the most recent entries of `all`. */
  ghost predicate MostRecent(all: map<Key, Entry>, kept: map<Key, Entry>) {
    && SubMap(kept, all)
    && forall e, s | e in all && e !in kept && s in kept :: all[e].recency < kept[s].recency
  }

  /** Entries evicted to make room for `incoming` bytes: the oldest ones, down to the budget, and putting the newest
      evicted one back would exceed it. */
  ghost predicate EvictedFor(all: map<Key, Entry>, kept: map<Key, Entry>, incoming: nat, max: nat) {
    && MostRecent(all, kept)
    && (SizeSum(kept) + incoming <= max || kept == map[])
    && NoneTooMany(all, kept, incoming, max)
  }

  ghost predicate NoneTooMany(all: map<Key, Entry>, kept: map<Key, Entry>, incoming: nat, max: nat) {
    kept != all ==> exists e | e in all && e !in kept ::
      && (forall x | x in all && x !in kept :: all[x].recency <= all[e].recency)
      && SizeSum(kept) + all[e].size + incoming > max
  }

  /** Evicting the oldest survivor while the budget is exceeded keeps the eviction exact. */
  lemma EvictOldest(all: map<Key, Entry>, kept: map<Key, Entry>, k: Key, incoming: nat, max: nat)
    requires MostRecent(all, kept) && DistinctRecency(kept)
    requires k in kept && (forall x | x in kept :: kept[k].recency <= kept[x].recency)
    requires SizeSum(kept) + incoming > max
    ensures MostRecent(all, kept - {k}) && NoneTooMany(all, kept - {k}, incoming, max)
  {
    SizeSumRemove(kept, k);
    var m := kept - {k};
    assert k in all && k !in m;
    assert forall x | x in all && x !in m :: x == k || x !in kept;
  }

  ghost predicate DistinctRecency(m: map<Key, Entry>) {
    forall a, b | a in m && b in m && a != b :: m[a].recency != m[b].recency
  }

  /** No smaller set of evictions would have made room. */
  lemma EvictionIsMinimal(all: map<Key, Entry>, kept: map<Key, Entry>, other: map<Key, Entry>, incoming: nat, max: nat)
    requires EvictedFor(all, kept, incoming, max) && MostRecent(all, other) && kept.Keys < other.Keys
    ensures SizeSum(other) + incoming > max
  {
    var x :| x in other && x !in kept;
    assert kept != all;
    var e :| e in all && e !in kept && (forall x | x in all && x !in kept :: all[x].recency <= all[e].recency)
             && SizeSum(kept) + all[e].size + incoming > max;
    assert e in other;
    SizeSumRemove(other, e);
    SizeSumMonotone(kept, other - {e});
  }

  // ---- The store ----

  /** The index agrees with itself: sizes add up, paths are the keys' hashes, recencies are distinct and past. */
  ghost predicate IndexOk(hash: Key -> nat, entries: map<Key, Entry>, total: nat, nextRecency: nat) {
    && total == SizeSum(entries) && DistinctRecency(entries)
    && forall k | k in entries :: entries[k].path == hash(k) && entries[k].recency < nextRecency && |k| < 0x1_0000_0000
  }

  /** Every file that a key owns holds the last payload stored under that key, and from the others no key
      can be read. */
  ghost predicate FilesOk(hash: Key -> nat, files: map<nat, Data>, owner: map<nat, Key>, entries: map<Key, Entry>,
                          last: map<Key, Data>) {
    && owner.Keys <= files.Keys
    && (forall h | h in owner ::
          && hash(owner[h]) == h && |owner[h]| < 0x1_0000_0000 && owner[h] in last
          && files[h] == FileBytes(owner[h], last[owner[h]])
          && (owner[h] in entries ==> entries[owner[h]].size == |files[h]|))
    && (forall h | h in files && h !in owner :: StoredKey(files[h]) == None)
  }

  /** Every file whose key the constructor would read is indexed. */
  ghost predicate Indexed(owner: map<nat, Key>, entries: map<Key, Entry>) {
    forall h | h in owner && |owner[h]| <= LONGEST_KEY :: owner[h] in entries
  }

  lemma RemoveIndex(hash: Key -> nat, entries: map<Key, Entry>, total: nat, nextRecency: nat, k: Key)
    requires IndexOk(hash, entries, total, nextRecency) && k in entries
    ensures entries[k].size <= total && IndexOk(hash, entries - {k}, total - entries[k].size, nextRecency)
    ensures entries[k].path == hash(k)
  {
    SizeSumRemove(entries, k);
  }

  lemma OwnersOk(hash: Key -> nat, files: map<nat, Data>, owner: map<nat, Key>, entries: map<Key, Entry>,
                 last: map<Key, Data>)
    requires FilesOk(hash, files, owner, entries, last)
    ensures owner.Keys <= files.Keys && forall h | h in owner :: hash(owner[h]) == h && owner[h] in last
  {
  }

  lemma RemoveFile(hash: Key -> nat, files: map<nat, Data>, owner: map<nat, Key>, entries: map<Key, Entry>,
                   last: map<Key, Data>, k: Key)
    requires FilesOk(hash, files, owner, entries, last)
    ensures FilesOk(hash, files - {hash(k)}, owner - {hash(k)}, entries - {k}, last)
    ensures FilesOk(hash, files, owner, entries - {k}, last)
    ensures Indexed(owner, entries) ==> Indexed(owner - {hash(k)}, entries - {k})
  {
    hide FileBytes, StoredKey;
  }

  /** What the store can give back: the keys that own the file their hash names. */
  ghost function Stored(hash: Key -> nat, files: map<nat, Data>, owner: map<nat, Key>, entries: map<Key, Entry>,
                        last: map<Key, Data>): map<Key, Data>
    requires FilesOk(hash, files, owner, entries, last)
  {
    map k | k in entries && hash(k) in owner && owner[hash(k)] == k :: last[k]
  }

  // ---- The order of use ----

  /** The keys of the index, least recently used first: their recencies ascend in that order. */
  ghost predicate InOrder<K>(uses: seq<K>, entries: map<K, Entry>) {
    && (forall k | k in entries :: k in uses) && (forall i | 0 <= i < |uses| :: uses[i] in entries)
    && (forall i, j | 0 <= i < j < |uses| :: entries[uses[i]].recency < entries[uses[j]].recency)
  }

  function Without<K(==)>(uses: seq<K>, k: K): seq<K> {
    if uses == [] then []
    else if uses[0] == k then Without(uses[1..], k)
    else [uses[0]] + Without(uses[1..], k)
  }

  ghost predicate TailOf<K>(s: seq<K>, t: seq<K>) {
    |s| <= |t| && s == t[|t| - |s|..]
  }

  lemma {:induction false} WithoutAbsent<K>(uses: seq<K>, k: K)
    requires k !in uses
    ensures Without(uses, k) == uses
  {
    if uses != [] { WithoutAbsent(uses[1..], k); }
  }

  /** Taking out a key leaves the others in their order. */
  lemma {:induction false} WithoutExactly<K>(a: seq<K>, k: K, b: seq<K>)
    requires k !in a && k !in b
    ensures Without(a + [k] + b, k) == a + b
  {
    var l := a + [k] + b;
    if a == [] {
      WithoutAbsent(b, k);
      assert l[1..] == b && a + b == b;
    } else {
      WithoutExactly(a[1..], k, b);
      assert l[1..] == a[1..] + [k] + b;
      assert a + b == [a[0]] + (a[1..] + b);
    }
  }

  lemma DistinctUses<K>(uses: seq<K>, entries: map<K, Entry>)
    requires InOrder(uses, entries)
    ensures forall i, j | 0 <= i < j < |uses| :: uses[i] != uses[j]
    ensures forall i | 0 <= i < |uses| :: uses[i] in entries
    ensures forall k | k in entries :: k in uses
  {
    assert forall i | 0 <= i < |uses| :: uses[i] in uses;
  }

  /** A key of the index has one place in the order of use. */
  lemma UsedOnce<K>(uses: seq<K>, entries: map<K, Entry>, k: K) returns (i: nat)
    requires InOrder(uses, entries) && k in entries
    ensures i < |uses| && uses[i] == k && Without(uses, k) == uses[..i] + uses[i + 1..]
  {
    hide InOrder, Without;
    DistinctUses(uses, entries);
    i :| 0 <= i < |uses| && uses[i] == k;
    CutOut(uses, i);
  }

  lemma CutOut<K>(l: seq<K>, i: nat)
    requires i < |l| && forall x, y | 0 <= x < y < |l| :: l[x] != l[y]
    ensures var u := l[..i] + l[i + 1..];
            && Without(l, l[i]) == u
            && (forall x | 0 <= x < |u| :: u[x] == l[if x < i then x else x + 1])
            && (forall k :: k in u <==> k in l && k != l[i])
  {
    hide Without;
    var a, b := l[..i], l[i + 1..];
    assert l == a + [l[i]] + b;
    assert l[i] !in a && l[i] !in b;
    WithoutExactly(a, l[i], b);
    SplitMembers(a, l[i], b);
  }

  lemma SplitMembers<K>(a: seq<K>, k: K, b: seq<K>)
    ensures forall x :: x in a + [k] + b <==> x in a + b || x == k
  {
  }

  lemma UnusedKey<K>(uses: seq<K>, entries: map<K, Entry>, k: K)
    requires InOrder(uses, entries) && k !in entries
    ensures Without(uses, k) == uses
  {
    WithoutAbsent(uses, k);
  }

  lemma OrderWithout<K>(uses: seq<K>, entries: map<K, Entry>, k: K)
    requires InOrder(uses, entries)
    ensures InOrder(Without(uses, k), entries - {k})
  {
    if k !in entries {
      WithoutAbsent(uses, k);
      assert entries - {k} == entries;
    } else {
      var i := UsedOnce(uses, entries, k);
      OrderCut(uses, entries, i);
    }
  }

  lemma OrderCut<K>(uses: seq<K>, entries: map<K, Entry>, i: nat)
    requires InOrder(uses, entries) && i < |uses|
    ensures InOrder(uses[..i] + uses[i + 1..], entries - {uses[i]})
  {
    hide InOrder, Without;
    DistinctUses(uses, entries);
    CutOut(uses, i);
    var u, m := uses[..i] + uses[i + 1..], entries - {uses[i]};
    forall x | 0 <= x < |u| ensures u[x] in m {
      assert u[x] in u;
    }
    forall x, y | 0 <= x < y < |u| ensures m[u[x]].recency < m[u[y]].recency {
      var x', y' := if x < i then x else x + 1, if y < i then y else y + 1;
      OneBefore(uses, entries, x', y');
      assert u[x] == uses[x'] && u[y] == uses[y'];
    }
    InOrderIf(u, m);
  }

  lemma InOrderIf<K>(uses: seq<K>, entries: map<K, Entry>)
    requires forall k | k in entries :: k in uses
    requires forall i | 0 <= i < |uses| :: uses[i] in entries
    requires forall i, j | 0 <= i < j < |uses| :: entries[uses[i]].recency < entries[uses[j]].recency
    ensures InOrder(uses, entries)
  {
  }

  lemma OneBefore<K>(uses: seq<K>, entries: map<K, Entry>, x: nat, y: nat)
    requires InOrder(uses, entries) && x < y < |uses|
    ensures uses[x] in entries && uses[y] in entries && entries[uses[x]].recency < entries[uses[y]].recency
  {
  }

  /** A key used now comes last. */
  lemma OrderPush<K>(uses: seq<K>, entries: map<K, Entry>, k: K, e: Entry)
    requires InOrder(uses, entries) && k !in entries && forall x | x in entries :: entries[x].recency < e.recency
    ensures InOrder(uses + [k], entries[k := e])
  {
    var u, m := uses + [k], entries[k := e];
    forall i, j | 0 <= i < j < |u| ensures u[i] in m && u[j] in m && m[u[i]].recency < m[u[j]].recency {
      assert u[i] == uses[i] && uses[i] in uses;
      if j < |uses| { assert u[j] == uses[j]; }
    }
  }

  /** The least recent entry is the first in the order of use. */
  lemma OldestFirst<K>(uses: seq<K>, entries: map<K, Entry>, k: K)
    requires InOrder(uses, entries) && k in entries
    requires forall x | x in entries :: entries[k].recency <= entries[x].recency
    ensures uses != [] && uses[0] == k && Without(uses, k) == uses[1..]
  {
    var i := UsedOnce(uses, entries, k);
    assert uses[0] in uses;
    if i > 0 { assert false; }
  }

  /** The keys that can be read from a directory, in the order of its files. */
  function Readable(owner: map<nat, Key>, order: seq<nat>): seq<Key> {
    if order == [] then []
    else
      var p := order[|order| - 1];
      Readable(owner, order[..|order| - 1]) + if p in owner && |owner[p]| <= LONGEST_KEY then [owner[p]] else []
  }

  class Store {
    const maxBytes: nat
    const hash: Key -> nat
    const faulty: bool
    const locked: bool
    var files: map<nat, Data>
    var entries: map<Key, Entry>
    var total: nat
    var nextRecency: nat
    /** The key each file was written for, and the last payload successfully put under each key. */
    ghost var owner: map<nat, Key>
    ghost var last: map<Key, Data>
    /** The keys of the entries in the order in which they were last put or got. */
    ghost var uses: seq<Key>

    ghost predicate Valid()
      reads this
    {
      IndexOk(hash, entries, total, nextRecency) && FilesOk(hash, files, owner, entries, last)
          && (!locked ==> Indexed(owner, entries)) && InOrder(uses, entries)
    }

    ghost function Contents(): map<Key, Data>
      reads this
      requires Valid()
    {
      Stored(hash, files, owner, entries, last)
    }

    /** Every file in the directory with anything in it is indexed. */
    ghost predicate Covered()
      reads this
    {
      forall h | h in files && files[h] != [] :: h in owner && owner[h] in entries
    }

    /** While every file is indexed, the bytes on disk never exceed the running total. */
    lemma FilesWithinTotal()
      requires Valid() && Covered()
      ensures FileSum(files) <= total
    {
      FilesFitEntries(files, owner, entries);
    }

    /** Rebuilds the index from a directory; `order` lists its files by modification time. Files that no key can be read
        from, or whose key is longer than 4096 bytes, are passed over. */
    constructor Open(max: nat, h: Key -> nat, flt: bool, lck: bool, dir: map<nat, Data>, order: seq<nat>,
                     ghost own: map<nat, Key>, ghost lst: map<Key, Data>)
      requires FilesOk(h, dir, own, map[], lst)
      requires (forall p :: p in order <==> p in dir) && (forall i, j | 0 <= i < j < |order| :: order[i] != order[j])
      ensures Valid() && maxBytes == max && hash == h && faulty == flt && locked == lck && files == dir
                && owner == own && last == lst
      ensures Indexed(owner, entries)
      ensures forall k :: k in Contents() <==> |k| <= LONGEST_KEY && h(k) in own && own[h(k)] == k
      ensures Covered() <==> NoneSkipped(own, dir, dir.Keys)
      ensures FileSum(files) <= total <==> Covered()
      ensures uses == Readable(own, order)
    {
      hide IndexOk, FilesOk, FileSum, InOrder, Readable;
      var es, tot, next := Scan(h, dir, order, own, lst);
      maxBytes, hash, faulty, locked := max, h, flt, lck;
      files, owner, last := dir, own, lst;
      entries, total, nextRecency, uses := es, tot, next, Readable(own, order);
      new;
      OwnersOk(h, dir, own, es, lst);
      StoredFacts(h, dir, own, es, lst);
    }

    /** Drops an entry and, unless the system refuses, the file its hash names, whoever owns it. */
    method Remove(k: Key) returns (removed: bool)
      requires Valid()
      modifies this`files, this`entries, this`total, this`owner, this`uses
      ensures Valid() && removed == (k in old(entries)) && (!locked && old(Covered()) ==> Covered())
      ensures entries == old(entries) - {k} && uses == Without(old(uses), k)
      ensures removed && !locked ==> hash(k) !in files
      ensures || (files == old(files) && owner == old(owner))
              || (removed && files == old(files) - {hash(k)} && owner == old(owner) - {hash(k)})
    {
      hide IndexOk, FilesOk, InOrder, Without, Indexed;
      removed := k in entries;
      OrderWithout(uses, entries, k);
      if !removed { UnusedKey(uses, entries, k); }
      if !removed {
        assert entries == entries - {k};
        return;
      }
      RemoveIndex(hash, entries, total, nextRecency, k);
      RemoveFile(hash, files, owner, entries, last, k);
      OwnersOk(hash, files, owner, entries, last);
      var e := entries[k];
      var refused: bool := *;
      if !(locked && refused) {
        files := files - {e.path};
        owner := owner - {e.path};
      }
      total := total - e.size;
      entries := entries - {k};
      uses := Without(uses, k);
    }

    /** The least recently used key. */
    method LruKey() returns (k: Key)
      requires entries != map[]
      ensures k in entries && forall x | x in entries :: entries[k].recency <= entries[x].recency
    {
      k :| k in entries;
      var todo := entries.Keys - {k};
      while todo != {}
        invariant k in entries && todo <= entries.Keys
        invariant forall x | x in entries && x !in todo :: entries[k].recency <= entries[x].recency
        decreases todo
      {
        var x :| x in todo;
        if entries[x].recency < entries[k].recency { k := x; }
        todo := todo - {x};
      }
    }

    /** Evicts least recently used entries until `incoming` bytes fit the budget. */
    method EvictUntilFits(incoming: nat)
      requires Valid()
      modifies this`files, this`entries, this`total, this`owner, this`uses
      ensures Valid() && (!locked && old(Covered()) ==> Covered())
      ensures maxBytes == 0 ==>
                entries == old(entries) && files == old(files) && owner == old(owner) && uses == old(uses)
      ensures maxBytes != 0 ==> EvictedFor(old(entries), entries, incoming, maxBytes)
      ensures TailOf(uses, old(uses))
      ensures forall h | h in owner :: h in old(owner) && owner[h] == old(owner)[h]
    {
      hide IndexOk, FilesOk, MostRecent, NoneTooMany, DistinctRecency, InOrder, Without;
      OwnersOk(hash, files, owner, entries, last);
      if maxBytes == 0 { return; }
      ghost var all := entries;
      EvictNothing(all, incoming, maxBytes);
      while entries != map[] && total + incoming > maxBytes
        invariant Valid() && (!locked && old(Covered()) ==> Covered())
        invariant MostRecent(all, entries) && NoneTooMany(all, entries, incoming, maxBytes) && TailOf(uses, old(uses))
        invariant forall h | h in owner :: h in old(owner) && owner[h] == old(owner)[h]
        decreases entries.Keys
      {
        var k := LruKey();
        IndexFacts(hash, entries, total, nextRecency);
        OwnersOk(hash, files, owner, entries, last);
        EvictOldest(all, entries, k, incoming, maxBytes);
        OldestFirst(uses, entries, k);
        var removed := Remove(k);
      }
      IndexFacts(hash, entries, total, nextRecency);
    }

    /** Overwrite semantics and eviction: afterwards the key is gone and `incoming` bytes fit. */
    method MakeRoom(k: Key, incoming: nat)
      requires Valid() && (maxBytes == 0 || incoming <= maxBytes)
      modifies this`files, this`entries, this`total, this`owner, this`uses
      ensures Valid() && k !in entries && (!locked && old(Covered()) ==> Covered())
      ensures TailOf(uses, Without(old(uses), k)) && (maxBytes == 0 ==> uses == Without(old(uses), k))
      ensures maxBytes != 0 ==>
                total + incoming <= maxBytes && EvictedFor(old(entries) - {k}, entries, incoming, maxBytes)
      ensures forall x | x in Contents() :: x in old(Contents())
      ensures maxBytes == 0 ==> forall x | x in old(Contents()) && hash(x) != hash(k) :: x in Contents()
    {
      hide IndexOk, FilesOk, EvictedFor, Stored, SizeSum, InOrder, Without;
      StoredFacts(hash, files, owner, entries, last);
      var removed := Remove(k);
      EvictUntilFits(incoming);
      IndexFacts(hash, entries, total, nextRecency);
      if maxBytes != 0 { EvictedFits(old(entries) - {k}, entries, incoming, maxBytes); }
      StoredFacts(hash, files, owner, entries, last);
    }

    /** Removes what a failed write left behind. */
    method DiscardFile(k: Key)
      requires Valid() && k !in entries
      modifies this`files, this`owner
      ensures Valid() && (old(Covered()) ==> Covered())
      ensures forall x | x in Contents() :: x in old(Contents())
    {
      hide IndexOk, FilesOk, Stored, FileBytes, EntrySize, InOrder;
      RemoveStored(hash, files, owner, entries, last, k);
      files, owner := files - {hash(k)}, owner - {hash(k)};
    }

    /** Writes a whole file over whatever had its name, and indexes its key. */
    method CommitFile(k: Key, data: Data)
      requires Valid() && |k| < 0x1_0000_0000 && k !in entries
      modifies this`files, this`entries, this`total, this`nextRecency, this`owner, this`last, this`uses
      ensures Valid() && (old(Covered()) ==> Covered())
      ensures last == old(last)[k := data] && total == old(total) + EntrySize(k, |data|) && uses == old(uses) + [k]
      ensures entries - {k} == old(entries) && k in Contents() && Contents()[k] == data
      ensures forall x | x in Contents() && x != k :: x in old(Contents())
      ensures forall x | x in old(Contents()) && hash(x) != hash(k) :: x in Contents()
    {
      hide IndexOk, FilesOk, Stored, FileBytes, EntrySize, InOrder, Indexed;
      OwnersOk(hash, files, owner, entries, last);
      var path := hash(k);
      var e := Entry(path, EntrySize(k, |data|), nextRecency);
      InsertStored(hash, files, owner, entries, last, k, data, nextRecency);
      InsertIndex(hash, entries, total, nextRecency, k, e.size);
      IndexFacts(hash, entries, total, nextRecency);
      OrderPush(uses, entries, k, e);
      uses := uses + [k];
      files, owner := files[path := FileBytes(k, data)], owner[path := k];
      last := last[k := data];
      total := total + e.size;
      entries := entries[k := e];
      nextRecency := nextRecency + 1;
      AddRemove(old(entries), k, e);
    }

    /** Writes the file of a key that has no entry, and indexes it. A failed write leaves no file behind. */
    method WriteFile(k: Key, data: Data) returns (ok: bool)
      requires Valid() && |k| < 0x1_0000_0000 && k !in entries
      modifies this`files, this`entries, this`total, this`nextRecency, this`owner, this`last, this`uses
      ensures Valid() && (!locked && old(Covered()) ==> Covered()) && (!faulty ==> ok)
      ensures ok ==> last == old(last)[k := data] && total == old(total) + EntrySize(k, |data|)
      ensures ok ==> entries - {k} == old(entries) && k in Contents() && Contents()[k] == data
      ensures !ok ==> last == old(last)
      ensures uses == if ok then old(uses) + [k] else old(uses)
      ensures forall x | x in Contents() && x != k :: x in old(Contents())
      ensures ok ==> forall x | x in old(Contents()) && hash(x) != hash(k) :: x in Contents()
    {
      hide IndexOk, FilesOk, Stored, EntrySize, Indexed, InOrder;
      var fault: bool := *;
      if faulty && fault {
        DiscardFile(k);
        ok := false;
      } else {
        CommitFile(k, data);
        ok := true;
      }
    }

    /** Stores a payload under a key, evicting as needed. An oversized payload is refused and changes nothing. */
    method Put(k: Key, data: Data) returns (ok: bool)
      requires Valid() && |k| < 0x1_0000_0000
      modifies this`files, this`entries, this`total, this`nextRecency, this`owner, this`last, this`uses
      ensures Valid() && (!locked && old(Covered()) ==> Covered())
      ensures last == if ok then old(last)[k := data] else old(last)
      ensures ok ==> k in Contents() && Contents()[k] == data && (maxBytes != 0 ==> total <= maxBytes)
      ensures !faulty ==> (ok <==> maxBytes == 0 || EntrySize(k, |data|) <= maxBytes)
      ensures maxBytes != 0 && EntrySize(k, |data|) > maxBytes ==>
                files == old(files) && entries == old(entries) && uses == old(uses)
      ensures ok ==> uses != [] && uses[|uses| - 1] == k && TailOf(uses[..|uses| - 1], Without(old(uses), k))
      ensures ok && maxBytes == 0 ==> uses == Without(old(uses), k) + [k]
      ensures forall x | x in Contents() && x != k :: x in old(Contents())
      ensures ok && maxBytes == 0 ==> forall x | x in old(Contents()) && hash(x) != hash(k) :: x in Contents()
      ensures ok && maxBytes != 0 ==> EvictedFor(old(entries) - {k}, entries - {k}, EntrySize(k, |data|), maxBytes)
    {
      hide IndexOk, FilesOk, EvictedFor, Stored, EntrySize, InOrder, Without;
      var incoming := EntrySize(k, |data|);
      if maxBytes != 0 && incoming > maxBytes { return false; }
      MakeRoom(k, incoming);
      ok := WriteFile(k, data);
    }

    /** Reads the file an entry names: its payload, if the file can be read and holds that very key. */
    method ReadEntry(k: Key) returns (r: Option<Data>)
      requires Valid() && k in entries
      ensures r.Some? ==> k in Contents() && r.value == Contents()[k]
      ensures !faulty ==> (r.Some? <==> k in Contents())
    {
      hide IndexOk, FilesOk, Stored, StoredKey, Indexed, InOrder;
      StoredFacts(hash, files, owner, entries, last);
      RemoveIndex(hash, entries, total, nextRecency, k);
      var e := entries[k];
      var fault: bool := *;
      if e.path !in files || (faulty && fault) { return None; }
      ReadBack(hash, files, owner, entries, last, k);
      r := if StoredKey(files[e.path]) == Some(k) then Some(files[e.path][4 + |k|..e.size]) else None;
    }

    /** Reads a payload back. An unreadable file, or one that belongs to another key, costs the entry. */
    method Get(k: Key) returns (r: Option<Data>)
      requires Valid()
      modifies this`files, this`entries, this`total, this`nextRecency, this`owner, this`uses
      ensures Valid() && (!locked && old(Covered()) ==> Covered())
      ensures r.Some? ==> k in old(Contents()) && r.value == old(Contents())[k] && k in last && r.value == last[k]
      ensures r.Some? ==> Contents() == old(Contents()) && files == old(files)
      ensures uses == Without(old(uses), k) + if r.Some? then [k] else []
      ensures !faulty ==> (r.Some? <==> k in old(Contents()))
      ensures forall x | x in Contents() :: x in old(Contents())
      ensures forall x | x in old(Contents()) && hash(x) != hash(k) :: x in Contents()
    {
      hide IndexOk, FilesOk, Stored, Indexed, InOrder, Without;
      StoredFacts(hash, files, owner, entries, last);
      if k !in entries {
        UnusedKey(uses, entries, k);
        return None;
      }
      r := ReadEntry(k);
      if r.None? {
        var removed := Remove(k);
        StoredFacts(hash, files, owner, entries, last);
      } else {
        Bump(k);
      }
    }

    /** A hit makes its entry the most recent one. */
    method Bump(k: Key)
      requires Valid() && k in entries
      modifies this`entries, this`nextRecency, this`uses
      ensures Valid() && Contents() == old(Contents()) && entries.Keys == old(entries).Keys
      ensures uses == Without(old(uses), k) + [k]
    {
      hide IndexOk, FilesOk, Stored, StoredKey, SizeSum, InOrder, Without;
      Touch(hash, files, owner, entries, last, total, nextRecency, k);
      SameStored(hash, files, owner, entries, entries[k := entries[k].(recency := nextRecency)], last);
      IndexFacts(hash, entries, total, nextRecency);
      OrderWithout(uses, entries, k);
      OrderPush(Without(uses, k), entries - {k}, k, entries[k].(recency := nextRecency));
      uses := Without(uses, k) + [k];
      assert entries[k := entries[k].(recency := nextRecency)]
          == (entries - {k})[k := entries[k].(recency := nextRecency)];
      entries := entries[k := entries[k].(recency := nextRecency)];
      nextRecency := nextRecency + 1;
    }
  }

  lemma SameStored(hash: Key -> nat, files: map<nat, Data>, owner: map<nat, Key>, entries: map<Key, Entry>,
                   entries': map<Key, Entry>, last: map<Key, Data>)
    requires FilesOk(hash, files, owner, entries, last) && FilesOk(hash, files, owner, entries', last)
               && entries.Keys == entries'.Keys
    ensures Stored(hash, files, owner, entries, last) == Stored(hash, files, owner, entries', last)
    ensures Indexed(owner, entries) == Indexed(owner, entries')
  {
    hide FilesOk;
    assert forall k :: k in entries <==> k in entries';
  }

  /** Membership in the stored contents, without unfolding the directory invariant. */
  lemma StoredFacts(hash: Key -> nat, files: map<nat, Data>, owner: map<nat, Key>, entries: map<Key, Entry>,
                    last: map<Key, Data>)
    requires FilesOk(hash, files, owner, entries, last)
    ensures owner.Keys <= files.Keys
    ensures forall h | h in owner :: hash(owner[h]) == h && owner[h] in last
    ensures var c := Stored(hash, files, owner, entries, last);
            && (forall k | k in c :: k in last && c[k] == last[k])
            && (forall k :: k in c <==> k in entries && hash(k) in owner && owner[hash(k)] == k)
  {
  }

  /** A file gives its key and payload back; it satisfies a reader exactly when that reader's key owns it. */
  lemma ReadBack(hash: Key -> nat, files: map<nat, Data>, owner: map<nat, Key>, entries: map<Key, Entry>,
                 last: map<Key, Data>, k: Key)
    requires FilesOk(hash, files, owner, entries, last) && hash(k) in files && k in entries
    ensures StoredKey(files[hash(k)]) == Some(k) <==> hash(k) in owner && owner[hash(k)] == k
    ensures hash(k) in owner && owner[hash(k)] == k ==>
              && k in last && 4 + |k| <= entries[k].size == |files[hash(k)]|
              && files[hash(k)][4 + |k|..entries[k].size] == last[k]
  {
    if hash(k) in owner {
      var o := owner[hash(k)];
      StoredKeyOfFile(o, last[o]);
    }
  }

  lemma InsertFile(hash: Key -> nat, files: map<nat, Data>, owner: map<nat, Key>, entries: map<Key, Entry>,
                   last: map<Key, Data>, k: Key, data: Data, recency: nat)
    requires FilesOk(hash, files, owner, entries, last) && |k| < 0x1_0000_0000
    ensures FilesOk(hash, files[hash(k) := FileBytes(k, data)], owner[hash(k) := k],
                    entries[k := Entry(hash(k), EntrySize(k, |data|), recency)], last[k := data])
  {
    hide StoredKey;
    StoredKeyOfFile(k, data);
  }

  /** A written file serves its key, and displaces only keys with the same hash. */
  lemma InsertStored(hash: Key -> nat, files: map<nat, Data>, owner: map<nat, Key>, entries: map<Key, Entry>,
                     last: map<Key, Data>, k: Key, data: Data, recency: nat)
    requires FilesOk(hash, files, owner, entries, last) && |k| < 0x1_0000_0000
    ensures var files', owner' := files[hash(k) := FileBytes(k, data)], owner[hash(k) := k];
            var entries', last' := entries[k := Entry(hash(k), EntrySize(k, |data|), recency)], last[k := data];
            && FilesOk(hash, files', owner', entries', last')
            && (Indexed(owner, entries) ==> Indexed(owner', entries'))
            && var c, c' := Stored(hash, files, owner, entries, last), Stored(hash, files', owner', entries', last');
            && k in c' && c'[k] == data && (forall x | x in c' && x != k :: x in c)
            && (forall x | x in c && hash(x) != hash(k) :: x in c')
  {
    InsertFile(hash, files, owner, entries, last, k, data, recency);
    hide FilesOk;
  }

  lemma RemoveStored(hash: Key -> nat, files: map<nat, Data>, owner: map<nat, Key>, entries: map<Key, Entry>,
                     last: map<Key, Data>, k: Key)
    requires FilesOk(hash, files, owner, entries, last) && k !in entries
    ensures FilesOk(hash, files - {hash(k)}, owner - {hash(k)}, entries, last)
    ensures forall x | x in Stored(hash, files - {hash(k)}, owner - {hash(k)}, entries, last) ::
              x in Stored(hash, files, owner, entries, last)
  {
    RemoveFile(hash, files, owner, entries, last, k);
    assert entries - {k} == entries;
  }

  lemma InsertIndex(hash: Key -> nat, entries: map<Key, Entry>, total: nat, nextRecency: nat, k: Key, size: nat)
    requires IndexOk(hash, entries, total, nextRecency) && k !in entries && |k| < 0x1_0000_0000
    ensures IndexOk(hash, entries[k := Entry(hash(k), size, nextRecency)], total + size, nextRecency + 1)
  {
    var m := entries[k := Entry(hash(k), size, nextRecency)];
    SizeSumRemove(m, k);
    assert m - {k} == entries;
  }

  /** A hit only makes its entry the most recent one. */
  lemma Touch(hash: Key -> nat, files: map<nat, Data>, owner: map<nat, Key>, entries: map<Key, Entry>,
              last: map<Key, Data>, total: nat, nextRecency: nat, k: Key)
    requires IndexOk(hash, entries, total, nextRecency) && FilesOk(hash, files, owner, entries, last) && k in entries
    ensures var m := entries[k := entries[k].(recency := nextRecency)];
            && IndexOk(hash, m, total, nextRecency + 1) && FilesOk(hash, files, owner, m, last)
            && forall x | x in m && x != k :: m[x].recency < nextRecency
  {
    hide FileBytes;
    var m := entries[k := entries[k].(recency := nextRecency)];
    SizeSumRemove(m, k);
    SizeSumRemove(entries, k);
    assert m - {k} == entries - {k};
  }

  lemma EmptyScan(h: Key -> nat, dir: map<nat, Data>, own: map<nat, Key>, lst: map<Key, Data>)
    requires FilesOk(h, dir, own, map[], lst)
    ensures ScanState(h, dir, own, lst, map[], 0, 1, map[], 0)
  {
    hide FileBytes;
  }

  lemma {:induction false} FileSumAdd(m: map<nat, Data>, h: nat, d: Data)
    requires h !in m
    ensures FileSum(m[h := d]) == |d| + FileSum(m)
    decreases m
  {
    var m' := m[h := d];
    assert h in m';
    var x :| x in m' && FileSum(m') == |m'[x]| + FileSum(m' - {x});
    if x == h {
      assert m' - {x} == m;
    } else {
      FileSumAdd(m - {x}, h, d);
      assert m' - {x} == (m - {x})[h := d];
      FileSumAdd(m - {x}, x, m[x]);
      assert (m - {x})[x := m[x]] == m;
    }
  }

  /** A file of the directory is readable, and indexing its key keeps the invariants. */
  lemma LoadOne(hash: Key -> nat, files: map<nat, Data>, owner: map<nat, Key>, entries: map<Key, Entry>,
                last: map<Key, Data>, total: nat, nextRecency: nat, p: nat)
    requires IndexOk(hash, entries, total, nextRecency) && FilesOk(hash, files, owner, entries, last)
    requires p in owner && owner[p] !in entries
    ensures StoredKey(files[p]) == Some(owner[p]) && |files[p]| > 0
    ensures var m := entries[owner[p] := Entry(p, |files[p]|, nextRecency)];
            IndexOk(hash, m, total + |files[p]|, nextRecency + 1) && FilesOk(hash, files, owner, m, last)
  {
    StoredKeyOfFile(owner[p], last[owner[p]]);
    InsertIndex(hash, entries, total, nextRecency, owner[p], |files[p]|);
    hide FileBytes;
  }

  /** What can be read from a file is its owner's key, or nothing. */
  lemma KeyOrNone(hash: Key -> nat, files: map<nat, Data>, owner: map<nat, Key>, entries: map<Key, Entry>,
                  last: map<Key, Data>, p: nat)
    requires FilesOk(hash, files, owner, entries, last) && p in files
    ensures StoredKey(files[p]) == if p in owner then Some(owner[p]) else None
    ensures p in owner ==> files[p] != []
  {
    if p in owner { StoredKeyOfFile(owner[p], last[owner[p]]); }
  }

  /** The scanned index holds exactly the keys of the scanned files that are not too long. */
  ghost predicate Scanned(hash: Key -> nat, owner: map<nat, Key>, entries: map<Key, Entry>, seen: set<nat>) {
    && (forall k | k in entries :: hash(k) in seen && hash(k) in owner && owner[hash(k)] == k && |k| <= LONGEST_KEY)
    && (forall p | p in seen && p in owner && |owner[p]| <= LONGEST_KEY :: owner[p] in entries)
  }

  /** Every scanned file with anything in it has a key of at most 4096 bytes. */
  ghost predicate NoneSkipped(owner: map<nat, Key>, dir: map<nat, Data>, seen: set<nat>) {
    forall p | p in seen && p in dir && dir[p] != [] :: p in owner && |owner[p]| <= LONGEST_KEY
  }

  lemma ScanStep(hash: Key -> nat, dir: map<nat, Data>, owner: map<nat, Key>, entries: map<Key, Entry>,
                 seen: set<nat>, p: nat, e: Entry)
    requires Scanned(hash, owner, entries, seen) && p in dir && p !in seen
               && (p in owner ==> hash(owner[p]) == p && dir[p] != [])
    ensures p in owner ==> owner[p] !in entries
    ensures p in owner && |owner[p]| <= LONGEST_KEY ==>
              Scanned(hash, owner, entries[owner[p] := e], seen + {p})
                  && (NoneSkipped(owner, dir, seen + {p}) <==> NoneSkipped(owner, dir, seen))
    ensures !(p in owner && |owner[p]| <= LONGEST_KEY) ==>
              && Scanned(hash, owner, entries, seen + {p})
              && (NoneSkipped(owner, dir, seen + {p}) <==> NoneSkipped(owner, dir, seen) && dir[p] == [])
  {
  }

  /** The state of a scan that has passed the files `seen`, `skipped` bytes of which belong to overlong keys. */
  ghost predicate ScanState(h: Key -> nat, dir: map<nat, Data>, own: map<nat, Key>, lst: map<Key, Data>,
                            entries: map<Key, Entry>, total: nat, nextRecency: nat, seen: map<nat, Data>,
                            skipped: nat) {
    && IndexOk(h, entries, total, nextRecency) && FilesOk(h, dir, own, entries, lst)
    && Scanned(h, own, entries, seen.Keys) && FileSum(seen) == total + skipped
    && (skipped == 0 <==> NoneSkipped(own, dir, seen.Keys))
    && (forall p | p in seen :: p in dir && seen[p] == dir[p])
  }

  /** Reads one file of the directory. */
  method ScanOne(h: Key -> nat, dir: map<nat, Data>, p: nat, entries: map<Key, Entry>, total: nat, nextRecency: nat,
                 ghost own: map<nat, Key>, ghost lst: map<Key, Data>, ghost seen: map<nat, Data>, ghost skipped: nat)
    returns (entries': map<Key, Entry>, total': nat, nextRecency': nat, ghost skipped': nat)
    requires ScanState(h, dir, own, lst, entries, total, nextRecency, seen, skipped) && p in dir && p !in seen
    ensures ScanState(h, dir, own, lst, entries', total', nextRecency', seen[p := dir[p]], skipped')
    ensures if p in own && |own[p]| <= LONGEST_KEY
            then own[p] !in entries && entries' == entries[own[p] := Entry(p, |dir[p]|, nextRecency)]
            else entries' == entries
  {
    hide IndexOk, FilesOk, FileSum, Scanned, NoneSkipped, StoredKey;
    entries', total', nextRecency', skipped' := entries, total, nextRecency, skipped;
    KeyOrNone(h, dir, own, entries, lst, p);
    OwnersOk(h, dir, own, entries, lst);
    ScanStep(h, dir, own, entries, seen.Keys, p, Entry(p, |dir[p]|, nextRecency));
    if p in own { LoadOne(h, dir, own, entries, lst, total, nextRecency, p); }
    FileSumAdd(seen, p, dir[p]);
    assert seen[p := dir[p]].Keys == seen.Keys + {p};
    var key := StoredKey(dir[p]);
    if key.Some? && |key.value| <= LONGEST_KEY {
      entries' := entries[key.value := Entry(p, |dir[p]|, nextRecency)];
      total' := total + |dir[p]|;
      nextRecency' := nextRecency + 1;
    } else {
      skipped' := skipped + |dir[p]|;
    }
  }

  lemma ReadableNext(owner: map<nat, Key>, order: seq<nat>, i: nat)
    ensures Readable(owner, order[..0]) == []
    ensures i < |order| ==>
              var p, r := order[i], Readable(owner, order[..i]);
              Readable(owner, order[..i + 1]) == if p in owner && |owner[p]| <= LONGEST_KEY then r + [owner[p]] else r
  {
    if i < |order| { assert order[..i + 1][..i] == order[..i]; }
  }

  /** The files are read one after another. */
  lemma {:induction false} ReadableConcat(owner: map<nat, Key>, a: seq<nat>, b: seq<nat>)
    ensures Readable(owner, a + b) == Readable(owner, a) + Readable(owner, b)
    ensures forall p :: Readable(owner, [p]) == if p in owner && |owner[p]| <= 4096 then [owner[p]] else []
    decreases |b|
  {
    forall p ensures Readable(owner, [p]) == if p in owner && |owner[p]| <= 4096 then [owner[p]] else [] {
      assert [p][..0] == [];
    }
    if b == [] {
      assert a + b == a;
    } else {
      assert (a + b)[..|a + b| - 1] == a + b[..|b| - 1];
      ReadableConcat(owner, a, b[..|b| - 1]);
    }
  }

  lemma AddRemove<K, V>(m: map<K, V>, k: K, v: V)
    requires k !in m
    ensures m[k := v] - {k} == m
  {
  }

  lemma NothingUsed()
    ensures InOrder<Key>([], map[])
  {
  }

  /** The constructor's scan of the directory. */
  method Scan(h: Key -> nat, dir: map<nat, Data>, order: seq<nat>, ghost own: map<nat, Key>, ghost lst: map<Key, Data>)
    returns (entries: map<Key, Entry>, total: nat, nextRecency: nat)
    requires FilesOk(h, dir, own, map[], lst)
    requires (forall p :: p in order <==> p in dir) && (forall i, j | 0 <= i < j < |order| :: order[i] != order[j])
    ensures IndexOk(h, entries, total, nextRecency) && FilesOk(h, dir, own, entries, lst)
    ensures Scanned(h, own, entries, dir.Keys)
    ensures FileSum(dir) <= total <==> NoneSkipped(own, dir, dir.Keys)
    ensures InOrder(Readable(own, order), entries)
  {
    hide IndexOk, FilesOk, FileSum, Scanned, NoneSkipped, InOrder, Readable;
    entries, total, nextRecency := map[], 0, 1;
    ghost var seen: map<nat, Data>, skipped: nat := map[], 0;
    EmptyScan(h, dir, own, lst);
    ReadableNext(own, order, 0);
    NothingUsed();
    for i := 0 to |order|
      invariant ScanState(h, dir, own, lst, entries, total, nextRecency, seen, skipped)
      invariant forall j | 0 <= j < |order| :: order[j] in seen <==> j < i
      invariant InOrder(Readable(own, order[..i]), entries)
    {
      var p := order[i];
      ReadableNext(own, order, i);
      IndexFacts(h, entries, total, nextRecency);
      ghost var was, now := entries, nextRecency;
      entries, total, nextRecency, skipped := ScanOne(h, dir, p, entries, total, nextRecency, own, lst, seen, skipped);
      seen := seen[p := dir[p]];
      if p in own && |own[p]| <= LONGEST_KEY {
        OrderPush(Readable(own, order[..i]), was, own[p], Entry(p, |dir[p]|, now));
      }
    }
    assert seen == dir;
    assert order[..|order|] == order;
  }

  /** Closing a store and opening its directory again, in any order of modification times, gives every key of at
      most 4096 bytes the same answer as before, unless a file survived the removal of its entry: such a file
      answers again. */
  method Reopen(s: Store, order: seq<nat>) returns (t: Store)
    requires s.Valid()
    requires (forall p :: p in order <==> p in s.files) && (forall i, j | 0 <= i < j < |order| :: order[i] != order[j])
    ensures fresh(t) && t.Valid() && t.files == s.files && t.last == s.last
    ensures forall k :: k in t.Contents() <==> |k| <= LONGEST_KEY && s.hash(k) in s.owner && s.owner[s.hash(k)] == k
    ensures forall k | |k| <= LONGEST_KEY && k in s.Contents() :: k in t.Contents()
    ensures forall k | k in s.Contents() && k in t.Contents() :: t.Contents()[k] == s.Contents()[k]
    ensures (forall k :: k in t.Contents() <==> |k| <= LONGEST_KEY && k in s.Contents()) <==>
              Indexed(s.owner, s.entries)
    ensures !s.locked ==> forall k :: k in t.Contents() <==> |k| <= LONGEST_KEY && k in s.Contents()
  {
    hide IndexOk, FilesOk, Stored, FileSum;
    StoredFacts(s.hash, s.files, s.owner, s.entries, s.last);
    t := Reload(s, order);
    StoredFacts(t.hash, t.files, t.owner, t.entries, t.last);
    forall h | h in s.owner ensures s.owner[h] in t.Contents() <==> |s.owner[h]| <= LONGEST_KEY {
    }
  }

  /** Opens a store, whose removals the system may refuse, over one file. */
  method OpenOverOne(h: Key -> nat, k: Key, payload: Data) returns (s: Store)
    requires |k| <= LONGEST_KEY
    ensures fresh(s) && s.Valid() && s.hash == h && k in s.Contents()
    ensures s.files == map[h(k) := FileBytes(k, payload)] && s.owner == map[h(k) := k] && s.last == map[k := payload]
  {
    hide FileBytes, StoredKey;
    ghost var own, lst := map[h(k) := k], map[k := payload];
    OneFile(h, k, payload);
    s := new Store.Open(0, h, false, true, map[h(k) := FileBytes(k, payload)], [h(k)], own, lst);
  }

  lemma OneFile(h: Key -> nat, k: Key, payload: Data)
    requires |k| < 0x1_0000_0000
    ensures FilesOk(h, map[h(k) := FileBytes(k, payload)], map[h(k) := k], map[], map[k := payload])
  {
    StoredKeyOfFile(k, payload);
  }

  /** A key is removed and the system keeps its file: the key is gone, and answers again once the directory
      is reopened. */
  method RemoveAndReopen(h: Key -> nat, k: Key, payload: Data) returns (refused: bool, s: Store, t: Store)
    requires |k| <= LONGEST_KEY
    ensures s.Valid() && k !in s.Contents() && t.Valid() && t.files == s.files
    ensures refused <==> h(k) in s.files
    ensures refused <==> k in t.Contents()
    ensures refused ==> t.Contents()[k] == payload && !Indexed(s.owner, s.entries)
  {
    hide FilesOk, IndexOk, Stored, FileBytes;
    s := OpenOverOne(h, k, payload);
    StoredFacts(s.hash, s.files, s.owner, s.entries, s.last);
    var removed := s.Remove(k);
    StoredFacts(s.hash, s.files, s.owner, s.entries, s.last);
    refused := h(k) in s.files;
    t := Reopen(s, if refused then [h(k)] else []);
    StoredFacts(t.hash, t.files, t.owner, t.entries, t.last);
  }

  /** A store opened over one file with a key of 4097 bytes accounts for none of it, and cannot give it back. */
  method OpenOverLongKey(h: Key -> nat, payload: Data) returns (t: Store)
    ensures fresh(t) && t.Valid() && !t.Covered() && t.Contents() == map[] && FileSum(t.files) > t.total
  {
    var k: Key := seq(4097, (i: nat) => 0);
    var dir, order := map[h(k) := FileBytes(k, payload)], [h(k)];
    ghost var own, lst := map[h(k) := k], map[k := payload];
    StoredKeyOfFile(k, payload);
    assert dir[h(k)] != [];
    t := new Store.Open(0, h, false, false, dir, order, own, lst);
  }

  /** Opens the directory of a store. */
  method Reload(s: Store, order: seq<nat>) returns (t: Store)
    requires s.Valid()
    requires (forall p :: p in order <==> p in s.files) && (forall i, j | 0 <= i < j < |order| :: order[i] != order[j])
    ensures fresh(t) && t.Valid() && t.files == s.files && t.last == s.last && t.owner == s.owner && t.hash == s.hash
    ensures forall k :: k in t.Contents() <==> |k| <= LONGEST_KEY && t.hash(k) in t.owner && t.owner[t.hash(k)] == k
  {
    FewerEntries(s.hash, s.files, s.owner, s.entries, s.last);
    t := new Store.Open(s.maxBytes, s.hash, s.faulty, s.locked, s.files, order, s.owner, s.last);
  }

  lemma FewerEntries(hash: Key -> nat, files: map<nat, Data>, owner: map<nat, Key>, entries: map<Key, Entry>,
                     last: map<Key, Data>)
    requires FilesOk(hash, files, owner, entries, last)
    ensures FilesOk(hash, files, owner, map[], last)
  {
    hide FileBytes, StoredKey;
  }

  lemma EvictedFits(all: map<Key, Entry>, kept: map<Key, Entry>, incoming: nat, max: nat)
    requires EvictedFor(all, kept, incoming, max) && incoming <= max
    ensures SizeSum(kept) + incoming <= max && kept.Keys <= all.Keys
  {
  }

  lemma IndexFacts(hash: Key -> nat, entries: map<Key, Entry>, total: nat, nextRecency: nat)
    requires IndexOk(hash, entries, total, nextRecency)
    ensures total == SizeSum(entries) && DistinctRecency(entries)
    ensures forall k | k in entries :: entries[k].recency < nextRecency
  {
  }

  lemma EvictNothing(all: map<Key, Entry>, incoming: nat, max: nat)
    ensures MostRecent(all, all) && NoneTooMany(all, all, incoming, max)
  {
  }
}
