/**
 The server's generation memory: a log of token streams, an index from n-gram keys to the most recent
 places they were followed by something, and the file that keeps the log. The key of an n-gram is an
 arbitrary hash, so different n-grams may share a key.
 */
module CorpusIndexing {
  import opened Collections
  import opened Bytes
  import opened CorpusFile

  datatype Config = Config(n: nat, maxSites: nat, maxTokens: nat, key: Stream -> nat)

  ghost predicate ValidConfig(c: Config) {
    c.n >= 1 && c.maxSites >= 1
  }

  // ---- The log ----

  function Flat(ss: seq<Stream>): Stream {
    if ss == [] then [] else Flat(ss[..|ss| - 1]) + ss[|ss| - 1]
  }

  /** Offsets one past the end of every stream. */
  function Ends(ss: seq<Stream>): (e: seq<nat>)
    ensures |e| == |ss|
  {
    if ss == [] then [] else Ends(ss[..|ss| - 1]) + [|Flat(ss)|]
  }

  lemma {:induction false} FlatConcat(a: seq<Stream>, b: seq<Stream>)
    ensures Flat(a + b) == Flat(a) + Flat(b)
    decreases |b|
  {
    if b == [] {
      assert a + b == a;
    } else {
      var b' := b[..|b| - 1];
      assert (a + b)[..|a + b| - 1] == a + b';
      FlatConcat(a, b');
      assert Flat(a) + (Flat(b') + b[|b| - 1]) == (Flat(a) + Flat(b')) + b[|b| - 1];
    }
  }

  lemma LastAndInit(ss: seq<Stream>, s: Stream)
    ensures var t := ss + [s]; t != [] && t[..|t| - 1] == ss && t[|t| - 1] == s
  {
  }

  lemma FlatSnoc(ss: seq<Stream>, s: Stream)
    ensures Flat(ss + [s]) == Flat(ss) + s
    ensures Ends(ss + [s]) == Ends(ss) + [|Flat(ss)| + |s|]
  {
    var t := ss + [s];
    LastAndInit(ss, s);
    assert Flat(t) == Flat(t[..|t| - 1]) + t[|t| - 1];
    assert Ends(t) == Ends(t[..|t| - 1]) + [|Flat(t)|];
  }

  lemma {:induction false} EndsAt(ss: seq<Stream>, i: nat)
    requires i < |ss|
    ensures Ends(ss)[i] == |Flat(ss[..i + 1])|
    decreases |ss|
  {
    if i + 1 == |ss| {
      assert ss[..i + 1] == ss;
    } else {
      var ss' := ss[..|ss| - 1];
      EndsAt(ss', i);
      assert ss'[..i + 1] == ss[..i + 1];
    }
  }

  /** Where stream `i` lies in the log. */
  lemma StreamInLog(ss: seq<Stream>, i: nat)
    requires i < |ss|
    ensures var b, e := |Flat(ss[..i])|, |Flat(ss[..i + 1])|;
            b <= e <= |Flat(ss)| && e == b + |ss[i]| && Flat(ss)[b..e] == ss[i]
  {
    assert ss[..i + 1] == ss[..i] + [ss[i]];
    FlatSnoc(ss[..i], ss[i]);
    assert ss == ss[..i + 1] + ss[i + 1..];
    FlatConcat(ss[..i + 1], ss[i + 1..]);
  }

  // ---- Sites ----

  /** Sites of `key` in a stream that starts at offset `off`: the places right after the n-grams with that key among the
      first `m`, in order. A site always has a token of the same stream to offer. */
  function StreamSites(c: Config, s: Stream, off: nat, key: nat, m: nat): seq<nat>
    requires m == 0 || m + c.n <= |s|
  {
    if m == 0 then []
    else StreamSites(c, s, off, key, m - 1)
         + if c.key(s[m - 1..m - 1 + c.n]) == key then [off + m - 1 + c.n] else []
  }

  function WholeSites(c: Config, s: Stream, off: nat, key: nat): seq<nat> {
    if |s| <= c.n then [] else StreamSites(c, s, off, key, |s| - c.n)
  }

  /** Every site of `key` in the log, oldest first. */
  function Sites(c: Config, ss: seq<Stream>, key: nat): seq<nat> {
    if ss == [] then []
    else Sites(c, ss[..|ss| - 1], key) + WholeSites(c, ss[|ss| - 1], |Flat(ss[..|ss| - 1])|, key)
  }

  function LastOf(s: seq<nat>, k: nat): seq<nat> {
    if |s| <= k then s else s[|s| - k..]
  }

  /** Some of the last `k` entries, and as many of them as there are. */
  lemma LastOfExactly(s: seq<nat>, k: nat, x: nat)
    ensures x in LastOf(s, k) <==> exists i | 0 <= i < |s| && |s| - k <= i :: s[i] == x
  {
    var r := LastOf(s, k);
    if i :| 0 <= i < |s| && |s| - k <= i && s[i] == x {
      assert r[i - (|s| - |r|)] == x;
    }
    if x in r {
      var j :| 0 <= j < |r| && r[j] == x;
      assert s[|s| - |r| + j] == x;
    }
  }

  lemma LastOfConcat(x: seq<nat>, y: seq<nat>, k: nat)
    ensures LastOf(LastOf(x, k) + y, k) == LastOf(x + y, k)
  {
  }

  // ---- The index ----

  function SitesFor(index: map<nat, seq<nat>>, key: nat): seq<nat> {
    if key in index then index[key] else []
  }

  /** The index holds, for every key, the last `maxSites` of its sites in the whole log. */
  ghost predicate IndexOk(c: Config, ss: seq<Stream>, index: map<nat, seq<nat>>) {
    forall key: nat :: SitesFor(index, key) == LastOf(Sites(c, ss, key), c.maxSites)
  }

  /** Indexes one stream of the log, a bounded queue of sites per key. */
  method IndexStream(c: Config, log: Stream, index: map<nat, seq<nat>>, begin: nat, end: nat)
    returns (index': map<nat, seq<nat>>)
    requires ValidConfig(c) && begin <= end <= |log|
    requires forall key: nat :: |SitesFor(index, key)| <= c.maxSites
    ensures forall key: nat ::
              SitesFor(index', key) == LastOf(SitesFor(index, key) + WholeSites(c, log[begin..end], begin, key),
                                              c.maxSites)
  {
    hide StreamSites, SitesFor, LastOf, WholeSites, IndexedUpTo;
    index' := index;
    ghost var s := log[begin..end];
    NoSitesYet(c, index, s, begin);
    if end - begin < c.n + 1 { return; }
    var i := begin;
    while i + c.n < end
      invariant begin <= i && i + c.n <= end
      invariant IndexedUpTo(c, index, index', s, begin, i - begin)
    {
      var gram := log[i..i + c.n];
      var key := c.key(gram);
      var sites := SitesFor(index', key) + [i + c.n];
      if |sites| > c.maxSites { sites := sites[1..]; }
      SliceOfSlice(log, begin, end, i, c.n);
      IndexOneMore(c, index, index', s, begin, i - begin, sites);
      index' := index'[key := sites];
      i := i + 1;
    }
    AllIndexed(c, index, index', s, begin, i - begin);
  }

  /** Once no n-gram with a continuation is left, the whole stream is indexed. */
  lemma AllIndexed(c: Config, index: map<nat, seq<nat>>, index': map<nat, seq<nat>>, s: Stream, off: nat, m: nat)
    requires m + c.n == |s| > c.n && IndexedUpTo(c, index, index', s, off, m)
    ensures forall key: nat :: SitesFor(index', key) == LastOf(SitesFor(index, key) + WholeSites(c, s, off, key),
                                                               c.maxSites)
  {
    hide StreamSites, SitesFor, LastOf;
  }

  /** The first `m` n-grams of the stream are in the index. */
  ghost predicate IndexedUpTo(c: Config, index: map<nat, seq<nat>>, index': map<nat, seq<nat>>, s: Stream, off: nat,
                              m: nat)
    requires m == 0 || m + c.n <= |s|
  {
    forall key: nat :: SitesFor(index', key) == LastOf(SitesFor(index, key) + StreamSites(c, s, off, key, m),
                                                       c.maxSites)
  }

  lemma NoSitesYet(c: Config, index: map<nat, seq<nat>>, s: Stream, off: nat)
    requires forall key: nat :: |SitesFor(index, key)| <= c.maxSites
    ensures IndexedUpTo(c, index, index, s, off, 0)
    ensures |s| <= c.n ==> forall key: nat ::
              SitesFor(index, key) == LastOf(SitesFor(index, key) + WholeSites(c, s, off, key), c.maxSites)
  {
    forall key: nat ensures SitesFor(index, key) + [] == SitesFor(index, key) {
    }
  }

  lemma SliceOfSlice(log: Stream, begin: nat, end: nat, i: nat, n: nat)
    requires begin <= i && i + n <= end <= |log|
    ensures log[begin..end][i - begin..i - begin + n] == log[i..i + n]
  {
    var a, b := log[begin..end][i - begin..i - begin + n], log[i..i + n];
    forall k | 0 <= k < n ensures a[k] == b[k] {
      assert a[k] == log[begin..end][i - begin + k];
    }
  }

  lemma OtherKey(c: Config, s: Stream, off: nat, k: nat, m: nat)
    requires m + 1 + c.n <= |s| && c.key(s[m..m + c.n]) != k
    ensures StreamSites(c, s, off, k, m + 1) == StreamSites(c, s, off, k, m)
  {
  }

  lemma IndexOneMore(c: Config, index: map<nat, seq<nat>>, index': map<nat, seq<nat>>, s: Stream, off: nat, m: nat,
                     sites: seq<nat>)
    requires c.n >= 1 && m + 1 + c.n <= |s| && IndexedUpTo(c, index, index', s, off, m)
    requires var cur := SitesFor(index', c.key(s[m..m + c.n]));
             sites == if |cur| + 1 > c.maxSites then (cur + [off + m + c.n])[1..] else cur + [off + m + c.n]
    ensures IndexedUpTo(c, index, index'[c.key(s[m..m + c.n]) := sites], s, off, m + 1)
  {
    hide LastOf, StreamSites;
    var key := c.key(s[m..m + c.n]);
    assert SitesFor(index', key) == LastOf(SitesFor(index, key) + StreamSites(c, s, off, key, m), c.maxSites);
    PushSite(c, s, off, m, SitesFor(index, key), SitesFor(index', key), sites);
    forall k: nat ensures SitesFor(index'[key := sites], k)
                          == LastOf(SitesFor(index, k) + StreamSites(c, s, off, k, m + 1), c.maxSites) {
      if k != key { OtherKey(c, s, off, k, m); }
    }
  }

  /** Appending to the queue of an n-gram's key, dropping its oldest site when full, is the last of the longer list. */
  lemma PushSite(c: Config, s: Stream, off: nat, m: nat, base: seq<nat>, cur: seq<nat>, sites: seq<nat>)
    requires c.n >= 1 && m + 1 + c.n <= |s|
    requires var key := c.key(s[m..m + c.n]);
             cur == LastOf(base + StreamSites(c, s, off, key, m), c.maxSites)
    requires sites == if |cur| + 1 > c.maxSites then (cur + [off + m + c.n])[1..] else cur + [off + m + c.n]
    ensures sites == LastOf(base + StreamSites(c, s, off, c.key(s[m..m + c.n]), m + 1), c.maxSites)
  {
    var key := c.key(s[m..m + c.n]);
    var x := base + StreamSites(c, s, off, key, m);
    assert base + StreamSites(c, s, off, key, m + 1) == x + [off + m + c.n];
    LastOfConcat(x, [off + m + c.n], c.maxSites);
  }

  lemma IndexSnoc(c: Config, ss: seq<Stream>, s: Stream, index: map<nat, seq<nat>>, index': map<nat, seq<nat>>)
    requires IndexOk(c, ss, index)
    requires forall key: nat ::
               SitesFor(index', key) == LastOf(SitesFor(index, key) + WholeSites(c, s, |Flat(ss)|, key), c.maxSites)
    ensures IndexOk(c, ss + [s], index')
  {
    forall key: nat ensures SitesFor(index', key) == LastOf(Sites(c, ss + [s], key), c.maxSites) {
      assert (ss + [s])[..|ss|] == ss;
      LastOfConcat(Sites(c, ss, key), WholeSites(c, s, |Flat(ss)|, key), c.maxSites);
    }
  }

  lemma IndexBounded(c: Config, ss: seq<Stream>, index: map<nat, seq<nat>>)
    requires IndexOk(c, ss, index)
    ensures forall key: nat :: |SitesFor(index, key)| <= c.maxSites
  {
  }

  // ---- What the index means ----

  /** `p` continues an n-gram inside one stream: the naive reading of the log. */
  ghost predicate IsSite(c: Config, ss: seq<Stream>, p: nat) {
    ss != [] && var off := |Flat(ss[..|ss| - 1])|;
                off + c.n <= p < off + |ss[|ss| - 1]| || IsSite(c, ss[..|ss| - 1], p)
  }

  lemma {:induction false} SiteInLog(c: Config, ss: seq<Stream>, p: nat)
    requires IsSite(c, ss, p)
    ensures c.n <= p < |Flat(ss)|
  {
    if IsSite(c, ss[..|ss| - 1], p) { SiteInLog(c, ss[..|ss| - 1], p); }
  }

  /** The n-gram right before a place in the log. */
  function GramBefore(c: Config, log: Stream, p: nat): Stream {
    if c.n <= p <= |log| then log[p - c.n..p] else []
  }

  lemma {:induction false} StreamSitesMember(c: Config, s: Stream, off: nat, key: nat, m: nat, p: nat)
    requires c.n >= 1 && (m == 0 || m + c.n <= |s|)
    ensures p in StreamSites(c, s, off, key, m) <==>
              off + c.n <= p < off + c.n + m && c.key(s[p - off - c.n..p - off]) == key
    decreases m
  {
    if m > 0 {
      StreamSitesMember(c, s, off, key, m - 1, p);
      if p == off + m - 1 + c.n { assert p - off - c.n == m - 1; }
    }
  }

  lemma WholeSitesMember(c: Config, s: Stream, off: nat, key: nat, p: nat)
    requires c.n >= 1
    ensures p in WholeSites(c, s, off, key) <==> off + c.n <= p < off + |s| && c.key(s[p - off - c.n..p - off]) == key
  {
    hide StreamSites;
    if |s| > c.n { StreamSitesMember(c, s, off, key, |s| - c.n, p); }
  }

  /** An n-gram of a longer log lies in its beginning or in its last stream. */
  lemma GramInPart(c: Config, log: Stream, s: Stream, p: nat)
    ensures p <= |log| ==> GramBefore(c, log + s, p) == GramBefore(c, log, p)
    ensures |log| + c.n <= p <= |log| + |s| ==> GramBefore(c, log + s, p) == s[p - |log| - c.n..p - |log|]
  {
    if c.n <= p <= |log| { assert (log + s)[p - c.n..p] == log[p - c.n..p]; }
    if |log| + c.n <= p <= |log| + |s| { assert (log + s)[p - c.n..p] == s[p - |log| - c.n..p - |log|]; }
  }

  /** The sites of a key are exactly the places that continue an n-gram with that key. */
  lemma {:induction false} SitesMember(c: Config, ss: seq<Stream>, key: nat, p: nat)
    requires c.n >= 1
    ensures p in Sites(c, ss, key) <==> IsSite(c, ss, p) && c.key(GramBefore(c, Flat(ss), p)) == key
  {
    hide WholeSites, GramBefore;
    if ss != [] {
      var init, s := ss[..|ss| - 1], ss[|ss| - 1];
      SitesMember(c, init, key, p);
      WholeSitesMember(c, s, |Flat(init)|, key, p);
      GramInPart(c, Flat(init), s, p);
      if IsSite(c, init, p) { SiteInLog(c, init, p); }
    }
  }

  ghost predicate Ascending(s: seq<nat>) {
    forall i, j | 0 <= i < j < |s| :: s[i] < s[j]
  }

  lemma {:induction false} StreamSitesAscending(c: Config, s: Stream, off: nat, key: nat, m: nat)
    requires m == 0 || m + c.n <= |s|
    ensures Ascending(StreamSites(c, s, off, key, m))
    ensures forall i | 0 <= i < |StreamSites(c, s, off, key, m)| ::
              off + c.n <= StreamSites(c, s, off, key, m)[i] < off + c.n + m
    decreases m
  {
    if m > 0 { StreamSitesAscending(c, s, off, key, m - 1); }
  }

  lemma {:induction false} SitesAscending(c: Config, ss: seq<Stream>, key: nat)
    ensures Ascending(Sites(c, ss, key))
    ensures forall i | 0 <= i < |Sites(c, ss, key)| :: Sites(c, ss, key)[i] < |Flat(ss)|
  {
    if ss != [] {
      var init, s := ss[..|ss| - 1], ss[|ss| - 1];
      SitesAscending(c, init, key);
      if |s| > c.n { StreamSitesAscending(c, s, |Flat(init)|, key, |s| - c.n); }
    }
  }

  /** The newest of the given sites that really follows `gram`. */
  function Newest(c: Config, log: Stream, sites: seq<nat>, gram: Stream): Option<nat> {
    if sites == [] then None
    else
      var p := sites[|sites| - 1];
      if GramBefore(c, log, p) == gram then Some(p) else Newest(c, log, sites[..|sites| - 1], gram)
  }

  lemma {:induction false} NewestSpec(c: Config, log: Stream, sites: seq<nat>, gram: Stream)
    requires Ascending(sites)
    ensures match Newest(c, log, sites, gram)
            case None => forall p | p in sites :: GramBefore(c, log, p) != gram
            case Some(p) => p in sites && GramBefore(c, log, p) == gram
                            && forall p' | p' in sites && p' > p :: GramBefore(c, log, p') != gram
  {
    if sites != [] {
      var init, last := sites[..|sites| - 1], sites[|sites| - 1];
      assert Ascending(init);
      NewestSpec(c, log, init, gram);
      assert forall p | p in sites :: p in init || p == last;
      assert forall p | p in init :: p < last;
    }
  }

  /** The most recent place in the whole log, by a search that knows nothing of keys, where `gram` is continued. */
  ghost predicate MostRecent(c: Config, ss: seq<Stream>, gram: Stream, p: nat) {
    && IsSite(c, ss, p) && GramBefore(c, Flat(ss), p) == gram
    && forall p': nat | p' > p && IsSite(c, ss, p') :: GramBefore(c, Flat(ss), p') != gram
  }

  /** Searching all sites of a key is the naive search of the log. */
  lemma NewestIsMostRecent(c: Config, ss: seq<Stream>, gram: Stream)
    requires c.n >= 1
    ensures match Newest(c, Flat(ss), Sites(c, ss, c.key(gram)), gram)
            case None => forall p: nat | IsSite(c, ss, p) :: GramBefore(c, Flat(ss), p) != gram
            case Some(p) => MostRecent(c, ss, gram, p)
  {
    var sites := Sites(c, ss, c.key(gram));
    SitesAscending(c, ss, c.key(gram));
    NewestSpec(c, Flat(ss), sites, gram);
    forall p: nat ensures p in sites <==> IsSite(c, ss, p) && c.key(GramBefore(c, Flat(ss), p)) == c.key(gram) {
      SitesMember(c, ss, c.key(gram), p);
    }
  }

  /** Searching only the sites the index kept. */
  function Found(c: Config, ss: seq<Stream>, gram: Stream): Option<nat> {
    Newest(c, Flat(ss), LastOf(Sites(c, ss, c.key(gram)), c.maxSites), gram)
  }

  lemma {:induction false} NewestConcat(c: Config, log: Stream, a: seq<nat>, b: seq<nat>, gram: Stream)
    ensures Newest(c, log, a + b, gram) == if Newest(c, log, b, gram).Some? then Newest(c, log, b, gram)
              else Newest(c, log, a, gram)
    decreases |b|
  {
    if b == [] {
      assert a + b == a;
    } else {
      assert (a + b)[..|a + b| - 1] == a + b[..|b| - 1];
      NewestConcat(c, log, a, b[..|b| - 1], gram);
    }
  }

  lemma {:induction false} NewestNone(c: Config, log: Stream, sites: seq<nat>, gram: Stream)
    requires Newest(c, log, sites, gram) == None
    ensures forall p | p in sites :: GramBefore(c, log, p) != gram
  {
    if sites != [] {
      NewestNone(c, log, sites[..|sites| - 1], gram);
      assert forall p | p in sites :: p in sites[..|sites| - 1] || p == sites[|sites| - 1];
    }
  }

  /** Forgetting old sites loses the newest genuine one, or nothing. */
  lemma NewestOfTail(c: Config, log: Stream, sites: seq<nat>, gram: Stream, k: nat)
    ensures Newest(c, log, LastOf(sites, k), gram).Some? ==>
              Newest(c, log, LastOf(sites, k), gram) == Newest(c, log, sites, gram)
    ensures Newest(c, log, LastOf(sites, k), gram).Some? <==>
              Newest(c, log, sites, gram).Some? && Newest(c, log, sites, gram).value in LastOf(sites, k)
  {
    var tail := LastOf(sites, k);
    var head := sites[..|sites| - |tail|];
    assert sites == head + tail;
    NewestConcat(c, log, head, tail, gram);
    NewestMember(c, log, tail, gram);
    if Newest(c, log, tail, gram) == None {
      NewestNone(c, log, tail, gram);
      NewestMember(c, log, sites, gram);
    }
  }

  lemma {:induction false} NewestMember(c: Config, log: Stream, sites: seq<nat>, gram: Stream)
    ensures Newest(c, log, sites, gram).Some? ==>
              Newest(c, log, sites, gram).value in sites
                  && GramBefore(c, log, Newest(c, log, sites, gram).value) == gram
  {
    if sites != [] { NewestMember(c, log, sites[..|sites| - 1], gram); }
  }

  /** The index finds the most recent continuation exactly when fewer than `maxSites` newer sites share its key,
      which is always so when no other n-gram of the log has that key. What it finds is a genuine continuation in
      any case. */
  lemma FoundExactly(c: Config, ss: seq<Stream>, gram: Stream)
    requires ValidConfig(c)
    ensures Found(c, ss, gram).Some? ==> MostRecent(c, ss, gram, Found(c, ss, gram).value)
    ensures forall p: nat | MostRecent(c, ss, gram, p) ::
              Found(c, ss, gram) == if p in LastOf(Sites(c, ss, c.key(gram)), c.maxSites) then Some(p) else None
    ensures (forall p: nat | IsSite(c, ss, p) && c.key(GramBefore(c, Flat(ss), p)) == c.key(gram) ::
              GramBefore(c, Flat(ss), p) == gram)
            ==> (forall p: nat | MostRecent(c, ss, gram, p) :: Found(c, ss, gram) == Some(p))
  {
    hide Newest, Sites, GramBefore;
    var sites := Sites(c, ss, c.key(gram));
    NewestIsMostRecent(c, ss, gram);
    NewestOfTail(c, Flat(ss), sites, gram, c.maxSites);
    forall p: nat | MostRecent(c, ss, gram, p) ensures Newest(c, Flat(ss), sites, gram) == Some(p) {
    }
    if forall p: nat | IsSite(c, ss, p) && c.key(GramBefore(c, Flat(ss), p)) == c.key(gram) ::
        GramBefore(c, Flat(ss), p) == gram {
      NoCollisionFound(c, ss, gram);
    }
  }

  function OneKey(): Config {
    Config(1, 1, 4, (s: Stream) => 0)
  }

  lemma TwoTokenSites(a: TokenId, b: TokenId, off: nat)
    ensures WholeSites(OneKey(), [a, b], off, 0) == [off + 1]
  {
    var c, s := OneKey(), [a, b];
    assert StreamSites(c, s, off, 0, 0) == [];
    assert StreamSites(c, s, off, 0, 1) == [] + [off + 1];
  }

  lemma TwoStreams(a: Stream, b: Stream)
    ensures Flat([a]) == a && Flat([a, b]) == a + b
    ensures Sites(OneKey(), [a, b], 0) == WholeSites(OneKey(), a, 0, 0) + WholeSites(OneKey(), b, |a|, 0)
    ensures forall p: nat :: IsSite(OneKey(), [a, b], p) <==> 1 <= p < |a| || |a| + 1 <= p < |a| + |b|
  {
    hide WholeSites;
    var none: seq<Stream> := [];
    assert [a][..0] == none && [a, b][..1] == [a] && Flat(none) == [] && Sites(OneKey(), none, 0) == [];
    assert Flat([a]) == [] + a;
    assert Sites(OneKey(), [a], 0) == [] + WholeSites(OneKey(), a, 0, 0);
    forall p: nat ensures IsSite(OneKey(), [a], p) <==> 1 <= p < |a| {
    }
  }

  lemma TwoGrams()
    ensures GramBefore(OneKey(), [1, 2, 3, 4], 1) == [1] && GramBefore(OneKey(), [1, 2, 3, 4], 3) == [3]
    ensures LastOf([1, 3], 1) == [3]
  {
  }

  lemma OlderIsRecent()
    ensures MostRecent(OneKey(), [[1, 2], [3, 4]], [1], 1)
  {
    hide Flat, IsSite, GramBefore;
    var ss: seq<Stream> := [[1, 2], [3, 4]];
    TwoStreams([1, 2], [3, 4]);
    TwoGrams();
    assert [1, 2] + [3, 4] == [1, 2, 3, 4];
    forall p: nat | p > 1 && IsSite(OneKey(), ss, p) ensures GramBefore(OneKey(), Flat(ss), p) != [1] {
      assert p == 3;
    }
  }

  /** One site per key, and two n-grams that share a key: the older one is in the log and is not found. */
  lemma CollisionHides()
    ensures MostRecent(OneKey(), [[1, 2], [3, 4]], [1], 1) && Found(OneKey(), [[1, 2], [3, 4]], [1]) == None
  {
    hide Sites, Flat, IsSite, WholeSites, Newest, MostRecent, Found, GramBefore;
    var c, ss: seq<Stream> := OneKey(), [[1, 2], [3, 4]];
    TwoStreams([1, 2], [3, 4]);
    TwoTokenSites(1, 2, 0);
    TwoTokenSites(3, 4, 2);
    TwoGrams();
    assert Sites(c, ss, 0) == [1, 3];
    OlderIsRecent();
    FoundExactly(c, ss, [1]);
  }

  /** When every site of the key is genuine, the newest site is the newest genuine one, and the index always
      keeps it. */
  lemma NoCollisionFound(c: Config, ss: seq<Stream>, gram: Stream)
    requires ValidConfig(c)
    requires forall p: nat | IsSite(c, ss, p) && c.key(GramBefore(c, Flat(ss), p)) == c.key(gram) ::
               GramBefore(c, Flat(ss), p) == gram
    ensures var all := Newest(c, Flat(ss), Sites(c, ss, c.key(gram)), gram);
            all.Some? ==> all.value in LastOf(Sites(c, ss, c.key(gram)), c.maxSites)
  {
    hide IsSite, Sites, GramBefore;
    var sites := Sites(c, ss, c.key(gram));
    if sites != [] {
      var last := sites[|sites| - 1];
      assert last in sites;
      SitesMember(c, ss, c.key(gram), last);
      var kept := LastOf(sites, c.maxSites);
      assert kept[|kept| - 1] == last;
    }
  }

  // ---- Drafting ----

  /** End of the stream that position `p` lies in. */
  function EndOf(ss: seq<Stream>, p: nat): nat {
    if ss == [] then 0
    else if p >= |Flat(ss[..|ss| - 1])| then |Flat(ss)|
    else EndOf(ss[..|ss| - 1], p)
  }

  /** The first entry greater than `x`, or the default. */
  function FirstAbove(ends: seq<nat>, x: nat, default: nat): nat {
    if ends == [] then default else if ends[0] > x then ends[0] else FirstAbove(ends[1..], x, default)
  }

  lemma {:induction false} FirstAboveSnoc(a: seq<nat>, e: nat, x: nat, default: nat)
    ensures FirstAbove(a + [e], x, default) == FirstAbove(a, x, if e > x then e else default)
  {
    if a == [] {
      assert a + [e] == [e] && [e][1..] == [];
    } else {
      FirstAboveSnoc(a[1..], e, x, default);
      assert (a + [e])[1..] == a[1..] + [e];
    }
  }

  lemma {:induction false} FirstAboveNone(ends: seq<nat>, x: nat, default: nat)
    requires forall i | 0 <= i < |ends| :: ends[i] <= x
    ensures FirstAbove(ends, x, default) == default
  {
    if ends != [] { FirstAboveNone(ends[1..], x, default); }
  }

  lemma {:induction false} EndsWithin(ss: seq<Stream>)
    ensures forall i | 0 <= i < |ss| :: Ends(ss)[i] <= |Flat(ss)|
  {
    if ss != [] { EndsWithin(ss[..|ss| - 1]); }
  }

  /** Inside the log, the default never matters: the last end lies beyond every position. */
  lemma {:induction false} FirstAboveDefault(ss: seq<Stream>, x: nat, d: nat, d': nat)
    requires x < |Flat(ss)|
    ensures FirstAbove(Ends(ss), x, d) == FirstAbove(Ends(ss), x, d')
  {
    var init := ss[..|ss| - 1];
    FirstAboveSnoc(Ends(init), |Flat(ss)|, x, d);
    FirstAboveSnoc(Ends(init), |Flat(ss)|, x, d');
  }

  /** The upper bound of the position before a site among the stream ends is the end of the site's own stream. */
  lemma {:induction false} UpperBoundIsEnd(c: Config, ss: seq<Stream>, p: nat)
    requires c.n >= 1 && p > 0 && IsSite(c, ss, p)
    ensures FirstAbove(Ends(ss), p - 1, |Flat(ss)|) == EndOf(ss, p) && p < EndOf(ss, p) <= |Flat(ss)|
  {
    SiteInLog(c, ss, p);
    var init := ss[..|ss| - 1];
    var off := |Flat(init)|;
    FirstAboveSnoc(Ends(init), |Flat(ss)|, p - 1, |Flat(ss)|);
    if off + c.n <= p {
      EndsWithin(init);
      FirstAboveNone(Ends(init), p - 1, |Flat(ss)|);
    } else {
      SiteInLog(c, init, p);
      UpperBoundIsEnd(c, init, p);
      FirstAboveDefault(init, p - 1, |Flat(ss)|, |Flat(init)|);
    }
  }

  /** The continuation of a site is not empty, and together with its n-gram it lies inside one stream. */
  lemma {:induction false} ContinuationInStream(c: Config, ss: seq<Stream>, p: nat)
    requires c.n >= 1 && IsSite(c, ss, p)
    ensures exists i | 0 <= i < |ss| :: |Flat(ss[..i])| + c.n <= p < EndOf(ss, p) == |Flat(ss[..i + 1])|
  {
    var init := ss[..|ss| - 1];
    if |Flat(init)| + c.n <= p < |Flat(init)| + |ss[|ss| - 1]| {
      assert ss[..|ss| - 1 + 1] == ss;
    } else {
      ContinuationInStream(c, init, p);
      SiteInLog(c, init, p);
      var i :| 0 <= i < |init| && |Flat(init[..i])| + c.n <= p < EndOf(init, p) == |Flat(init[..i + 1])|;
      assert init[..i] == ss[..i] && init[..i + 1] == ss[..i + 1];
    }
  }

  /** `gram` stands in stream `i` right before its token `j`. */
  predicate Follows(c: Config, ss: seq<Stream>, gram: Stream, i: nat, j: nat) {
    i < |ss| && c.n <= j < |ss[i]| && ss[i][j - c.n..j] == gram
  }

  /** The last such place, stream by stream. */
  ghost predicate FollowsLast(c: Config, ss: seq<Stream>, gram: Stream, i: nat, j: nat) {
    && Follows(c, ss, gram, i, j)
    && forall x, y | i < x || (i == x && j < y) :: !Follows(c, ss, gram, x, y)
  }

  /** The stream of a site and the site's place in it. */
  lemma SiteInStream(c: Config, ss: seq<Stream>, p: nat) returns (i: nat, j: nat)
    requires c.n >= 1 && IsSite(c, ss, p)
    ensures Follows(c, ss, GramBefore(c, Flat(ss), p), i, j) && p == |Flat(ss[..i])| + j
    ensures EndOf(ss, p) == p + |ss[i]| - j <= |Flat(ss)|
    ensures j <= p && Flat(ss)[p - j..p - j + |ss[i]|] == ss[i]
  {
    hide IsSite, Flat, EndOf;
    ContinuationInStream(c, ss, p);
    i :| 0 <= i < |ss| && |Flat(ss[..i])| + c.n <= p < EndOf(ss, p) == |Flat(ss[..i + 1])|;
    var b := |Flat(ss[..i])|;
    j := p - b;
    StreamInLog(ss, i);
    SliceOfSlice(Flat(ss), b, b + |ss[i]|, p - c.n, c.n);
  }

  /** Every place inside a stream that has a whole n-gram before it is a site. */
  lemma {:induction false} StreamHasSite(c: Config, ss: seq<Stream>, i: nat, j: nat)
    requires i < |ss| && c.n <= j < |ss[i]|
    ensures IsSite(c, ss, |Flat(ss[..i])| + j)
    ensures GramBefore(c, Flat(ss), |Flat(ss[..i])| + j) == ss[i][j - c.n..j]
    decreases |ss|
  {
    StreamInLog(ss, i);
    var b := |Flat(ss[..i])|;
    SliceOfSlice(Flat(ss), b, b + |ss[i]|, b + j - c.n, c.n);
    if i < |ss| - 1 {
      StreamHasSite(c, ss[..|ss| - 1], i, j);
      assert ss[..|ss| - 1][..i] == ss[..i];
    }
  }

  lemma LaterInLog(ss: seq<Stream>, i: nat, i': nat)
    requires i < i' < |ss|
    ensures |Flat(ss[..i])| + |ss[i]| <= |Flat(ss[..i'])|
  {
    hide Flat;
    StreamInLog(ss, i);
    assert ss[..i'] == ss[..i + 1] + ss[i + 1..i'];
    FlatConcat(ss[..i + 1], ss[i + 1..i']);
  }

  /** The most recent site of the log is the last place in its streams. */
  lemma NothingLater(c: Config, ss: seq<Stream>, gram: Stream, i: nat, j: nat)
    requires Follows(c, ss, gram, i, j) && MostRecent(c, ss, gram, |Flat(ss[..i])| + j)
    ensures FollowsLast(c, ss, gram, i, j)
  {
    hide Flat, IsSite;
    forall x, y | i < x || (i == x && j < y) ensures !Follows(c, ss, gram, x, y) {
      if Follows(c, ss, gram, x, y) {
        StreamHasSite(c, ss, x, y);
        if i < x { LaterInLog(ss, i, x); }
      }
    }
  }

  /** The server memory. */
  class CorpusIndex {
    const c: Config
    var log: Stream
    var ends: seq<nat>
    var flushed: nat
    var index: map<nat, seq<nat>>
    var file: Data
    ghost var streams: seq<Stream>

    /** The index is that of the log, and the file holds exactly the flushed streams. */
    ghost predicate Valid()
      reads this
    {
      && ValidConfig(c) && Consistent()
      && flushed <= |streams| && file == EncodeAll(streams[..flushed])
      && |log| <= c.maxTokens
    }

    ghost predicate Consistent()
      reads this
    {
      log == Flat(streams) && ends == Ends(streams) && Storable(streams) && IndexOk(c, streams, index)
    }

    /** Opens a file of any bytes, rebuilds the index, and drops the oldest streams if it is over budget. The file
        then holds exactly the streams if it held nothing but whole frames before, or if it had to be rewritten. */
    constructor Open(cfg: Config, bytes: Data)
      requires ValidConfig(cfg)
      ensures Consistent() && |log| <= c.maxTokens && c == cfg && flushed == |streams|
      ensures EncodeAll(Load(bytes)) == bytes || |Flat(Load(bytes))| > cfg.maxTokens ==> Valid()
      ensures exists d: nat | d <= |Load(bytes)| ::
                FewestDropped(Load(bytes), d, cfg.maxTokens) && streams == Load(bytes)[d..]
    {
      hide EncodeAll, Load, Flat, Ends, IndexOk;
      var l, e := LoadStreams(bytes);
      var sites := BuildIndex(cfg, l, e, Load(bytes));
      c, file, streams := cfg, bytes, Load(bytes);
      log, ends, index, flushed := l, e, sites, |e|;
      new;
      assert streams[..flushed] == streams;
      if |log| > c.maxTokens {
        EvictOldest();
      } else {
        assert FewestDropped(streams, 0, c.maxTokens);
        assert streams[0..] == streams;
      }
    }

    /** Remembers a stream; over budget, the oldest streams go. */
    method Observe(tokens: Stream)
      requires Valid() && |tokens| < 0x1_0000_0000
      modifies this
      ensures Valid()
      ensures tokens == [] ==> streams == old(streams)
      ensures tokens != [] ==> exists d: nat | d <= |old(streams)| + 1 ::
                FewestDropped(old(streams) + [tokens], d, c.maxTokens) && streams == (old(streams) + [tokens])[d..]
    {
      hide EncodeAll, Flat, Ends, IndexOk, WholeSites;
      if tokens == [] { return; }
      var begin := |log|;
      IndexBounded(c, streams, index);
      FlatSnoc(streams, tokens);
      log := log + tokens;
      ends := ends + [|log|];
      assert log[begin..|log|] == tokens;
      var next := IndexStream(c, log, index, begin, |log|);
      IndexSnoc(c, streams, tokens, index, next);
      index := next;
      ghost var all := streams + [tokens];
      assert all[..flushed] == streams[..flushed];
      streams := all;
      if |log| > c.maxTokens {
        EvictOldest();
      } else {
        assert FewestDropped(all, 0, c.maxTokens);
        assert all[0..] == all;
      }
    }

    /** Drops the fewest oldest streams that bring the log within its budget, rebuilds the index and
        rewrites the file. */
    method EvictOldest()
      requires ValidConfig(c) && Consistent() && |log| > c.maxTokens
      modifies this
      ensures Valid() && flushed == |streams|
      ensures exists d: nat | d <= |old(streams)| ::
                FewestDropped(old(streams), d, c.maxTokens) && streams == old(streams)[d..]
    {
      hide EncodeAll, Flat, Ends, IndexOk;
      var d, tokens := ChooseDrop(ends, |log|, c.maxTokens, streams);
      AfterDrop(streams, d, tokens);
      log := log[tokens..];
      ends := Shifted(ends, d, tokens);
      streams := streams[d..];
      index := BuildIndex(c, log, ends, streams);
      file := Frames(log, ends, 0, streams);
      flushed := |ends|;
      assert streams[0..] == streams && streams[..flushed] == streams;
    }

    /** Appends the streams not yet written. */
    method Flush()
      requires Valid()
      modifies this`file, this`flushed
      ensures Valid() && flushed == |streams|
    {
      hide EncodeAll, Flat, Ends, IndexOk;
      if flushed >= |ends| { return; }
      var more := Frames(log, ends, flushed, streams);
      EncodeAllConcat(streams[..flushed], streams[flushed..]);
      assert streams[..flushed] + streams[flushed..] == streams;
      file := file + more;
      flushed := |ends|;
      assert streams[..flushed] == streams;
    }

    method StreamEndFor(offset: nat) returns (e: nat)
      ensures e == FirstAbove(ends, offset, |log|)
    {
      for i := 0 to |ends|
        invariant FirstAbove(ends, offset, |log|) == FirstAbove(ends[i..], offset, |log|)
      {
        if ends[i] > offset { return ends[i]; }
        assert ends[i..][1..] == ends[i + 1..];
      }
      e := |log|;
    }

    /** Retrieves what followed the tail's last n tokens where they occurred last, among the sites kept: up to `k`
        tokens of stream `i` from its token `j` on. */
    method Draft(tail: Stream, k: int) returns (d: Stream, ghost i: nat, ghost j: nat)
      requires Valid()
      ensures d != [] <==> k > 0 && |tail| >= c.n && Found(c, streams, tail[|tail| - c.n..]).Some?
      ensures d != [] ==>
                && FollowsLast(c, streams, tail[|tail| - c.n..], i, j)
                && d == streams[i][j..if k < |streams[i]| - j then j + k else |streams[i]|]
                && Found(c, streams, tail[|tail| - c.n..]) == Some(|Flat(streams[..i])| + j)
    {
      hide Sites, IsSite, Flat, Ends, EndOf, EncodeAll, Storable, Newest, LastOf, FirstAbove, MostRecent;
      d, i, j := [], 0, 0;
      if k <= 0 || |tail| < c.n { return; }
      var gram := tail[|tail| - c.n..];
      var key := c.key(gram);
      var sites := SitesFor(index, key);
      var s := |sites|;
      assert sites[..s] == sites;
      while s > 0
        invariant 0 <= s <= |sites|
        invariant Found(c, streams, gram) == Newest(c, log, sites[..s], gram)
      {
        s := s - 1;
        var start := sites[s];
        KeptSite(c, streams, key, s);
        UpperBoundIsEnd(c, streams, start);
        NewestStep(c, log, sites, s, gram);
        var end := StreamEndFor(if start > 0 then start - 1 else 0);
        if start < end && log[start - c.n..start] == gram {
          var take := if end - start < k then end - start else k;
          i, j := SiteInStream(c, streams, start);
          FoundExactly(c, streams, gram);
          NothingLater(c, streams, gram, i, j);
          DraftFrom(c, streams, gram, i, j, k, start, take);
          return log[start..start + take], i, j;
        }
      }
      NewestStep(c, log, sites, 0, gram);
    }
  }

  /** What is taken at a site is the stream's own continuation. */
  lemma DraftFrom(c: Config, ss: seq<Stream>, gram: Stream, i: nat, j: nat, k: nat, p: nat, take: nat)
    requires Follows(c, ss, gram, i, j) && k > 0 && take == (if |ss[i]| - j < k then |ss[i]| - j else k)
    requires j <= p && p - j + |ss[i]| <= |Flat(ss)| && Flat(ss)[p - j..p - j + |ss[i]|] == ss[i]
    ensures j < |ss[i]| && p + take <= |Flat(ss)|
    ensures Flat(ss)[p..p + take] == ss[i][j..if k < |ss[i]| - j then j + k else |ss[i]|] != []
  {
    hide Flat;
    SliceOfSlice(Flat(ss), p - j, p - j + |ss[i]|, p, take);
  }

  lemma NewestStep(c: Config, log: Stream, sites: seq<nat>, i: nat, gram: Stream)
    ensures i < |sites| ==> Newest(c, log, sites[..i + 1], gram)
                            == if GramBefore(c, log, sites[i]) == gram then Some(sites[i])
                                else Newest(c, log, sites[..i], gram)
    ensures Newest(c, log, sites[..0], gram) == None
  {
    if i < |sites| { assert sites[..i + 1][..i] == sites[..i]; }
  }

  /** The sites an index keeps are sites of the log. */
  lemma KeptSite(c: Config, ss: seq<Stream>, key: nat, i: nat)
    requires c.n >= 1 && i < |LastOf(Sites(c, ss, key), c.maxSites)|
    ensures var p := LastOf(Sites(c, ss, key), c.maxSites)[i];
            IsSite(c, ss, p) && c.n <= p < |Flat(ss)|
  {
    var p := LastOf(Sites(c, ss, key), c.maxSites)[i];
    assert p in Sites(c, ss, key);
    SitesMember(c, ss, key, p);
    SiteInLog(c, ss, p);
  }

  /** Dropping `d` streams is enough for the budget, and dropping fewer is not. */
  ghost predicate FewestDropped(ss: seq<Stream>, d: nat, max: nat)
    requires d <= |ss|
  {
    |Flat(ss[d..])| <= max && forall d' | 0 <= d' < d :: |Flat(ss[d'..])| > max
  }

  /** The eviction loop: how many streams go, and how many tokens that is. */
  method ChooseDrop(ends: seq<nat>, size: nat, max: nat, ghost ss: seq<Stream>) returns (d: nat, tokens: nat)
    requires ends == Ends(ss) && size == |Flat(ss)|
    ensures d <= |ss| && tokens == |Flat(ss[..d])| && FewestDropped(ss, d, max)
  {
    hide Flat, Ends;
    d, tokens := 0, 0;
    FlatOfNone(ss);
    while d < |ends| && size - tokens > max
      invariant d <= |ss| && tokens == |Flat(ss[..d])| <= size
      invariant forall d' | 0 <= d' < d :: |Flat(ss[d'..])| > max
    {
      FlatSplit(ss, d);
      EndsAt(ss, d);
      FlatSplit(ss, d + 1);
      tokens := ends[d];
      d := d + 1;
    }
    FlatSplit(ss, d);
    if d == |ss| { FlatOfNone(ss); }
  }

  lemma FlatOfNone(ss: seq<Stream>)
    ensures ss[..0] == [] && ss[|ss|..] == [] && Flat([]) == []
  {
  }

  lemma FlatSplit(ss: seq<Stream>, d: nat)
    requires d <= |ss|
    ensures |Flat(ss)| == |Flat(ss[..d])| + |Flat(ss[d..])|
    ensures Flat(ss)[|Flat(ss[..d])|..] == Flat(ss[d..])
  {
    assert ss == ss[..d] + ss[d..];
    FlatConcat(ss[..d], ss[d..]);
  }

  /** The ends from number `d` on, counted from `tokens`. */
  function Shifted(ends: seq<nat>, d: nat, tokens: nat): seq<nat>
    requires d <= |ends|
  {
    seq(|ends| - d, i requires 0 <= i < |ends| - d => if ends[d + i] >= tokens then ends[d + i] - tokens else 0)
  }

  /** Cutting whole streams off the front of the log and shifting the ends gives the log and ends of the rest. */
  lemma AfterDrop(ss: seq<Stream>, d: nat, tokens: nat)
    requires d <= |ss| && tokens == |Flat(ss[..d])| && Storable(ss)
    ensures tokens <= |Flat(ss)| && Flat(ss)[tokens..] == Flat(ss[d..]) && Storable(ss[d..])
    ensures Ends(ss[d..]) == Shifted(Ends(ss), d, tokens)
  {
    hide Flat, Ends;
    FlatSplit(ss, d);
    var rest := ss[d..];
    forall i | 0 <= i < |rest| ensures Ends(rest)[i] == Ends(ss)[d + i] - tokens {
      EndsAt(rest, i);
      EndsAt(ss, d + i);
      assert ss[..d + i + 1] == ss[..d] + rest[..i + 1];
      FlatConcat(ss[..d], rest[..i + 1]);
    }
  }

  /** Rebuilds the index of a log from nothing. */
  method BuildIndex(c: Config, log: Stream, ends: seq<nat>, ghost ss: seq<Stream>) returns (index: map<nat, seq<nat>>)
    requires ValidConfig(c) && log == Flat(ss) && ends == Ends(ss)
    ensures IndexOk(c, ss, index)
  {
    hide Flat, Ends, IndexOk, WholeSites;
    index := map[];
    var begin := 0;
    EmptyIndex(c, ss);
    for i := 0 to |ends|
      invariant begin == |Flat(ss[..i])| && IndexOk(c, ss[..i], index)
    {
      EndsAt(ss, i);
      StreamInLog(ss, i);
      IndexBounded(c, ss[..i], index);
      var next := IndexStream(c, log, index, begin, ends[i]);
      IndexSnoc(c, ss[..i], ss[i], index, next);
      assert ss[..i] + [ss[i]] == ss[..i + 1];
      index, begin := next, ends[i];
    }
    assert ss[..|ss|] == ss;
  }

  lemma EmptyIndex(c: Config, ss: seq<Stream>)
    ensures ss[..0] == [] && Flat([]) == [] && IndexOk(c, [], map[])
  {
  }

  /** The frames of the streams from number `from` on. */
  method Frames(log: Stream, ends: seq<nat>, from: nat, ghost ss: seq<Stream>) returns (d: Data)
    requires log == Flat(ss) && ends == Ends(ss) && from <= |ss|
    ensures d == EncodeAll(ss[from..])
  {
    hide Flat, Ends, EncodeAll, Frame;
    d := [];
    FramesStart(ss, from);
    for s := from to |ends|
      invariant d == EncodeAll(ss[from..s])
    {
      var begin := if s == 0 then 0 else ends[s - 1];
      NextFrame(ss, from, s);
      d := d + Frame(log[begin..ends[s]]);
    }
    assert ss[from..|ss|] == ss[from..];
  }

  lemma NextFrame(ss: seq<Stream>, from: nat, s: nat)
    requires from <= s < |ss|
    ensures var begin, end := if s == 0 then 0 else Ends(ss)[s - 1], Ends(ss)[s];
            begin <= end <= |Flat(ss)|
                && EncodeAll(ss[from..s + 1]) == EncodeAll(ss[from..s]) + Frame(Flat(ss)[begin..end])
  {
    hide Flat, Ends, EncodeAll, Frame;
    FlatOfNone(ss);
    if s > 0 { EndsAt(ss, s - 1); }
    EndsAt(ss, s);
    StreamInLog(ss, s);
    assert ss[from..s] + [ss[s]] == ss[from..s + 1];
    EncodeAllConcat(ss[from..s], [ss[s]]);
    OneFrame(ss[s]);
  }

  lemma FramesStart(ss: seq<Stream>, from: nat)
    requires from <= |ss|
    ensures ss[from..from] == [] && EncodeAll([]) == []
  {
  }

  lemma OneFrame(s: Stream)
    ensures EncodeAll([s]) == Frame(s)
  {
    assert [s][1..] == [];
  }

  /** Reads all frames of a file into one log. */
  method LoadStreams(bytes: Data) returns (log: Stream, ends: seq<nat>)
    ensures log == Flat(Load(bytes)) && ends == Ends(Load(bytes)) && Storable(Load(bytes))
  {
    hide Flat, Ends, ReadTokens, Decode, Load;
    log, ends := [], [];
    var at := 0;
    ghost var seen: seq<Stream> := [];
    LoadStart(bytes);
    while |bytes| - at >= 4
      invariant 0 <= at <= |bytes| && log == Flat(seen) && ends == Ends(seen) && Storable(seen)
      invariant Load(bytes) == seen + Load(bytes[at..])
      decreases |bytes| - at
    {
      var n := Decode(bytes[at..at + 4]);
      LoadStep(bytes, at, n, seen);
      if n == 0 || n > LONGEST_FRAME || |bytes| - at < 4 + 4 * n { return; }
      var tokens := ReadTokens(bytes[at + 4..], n);
      FlatSnoc(seen, tokens);
      log := log + tokens;
      ends := ends + [|log|];
      seen := seen + [tokens];
      at := at + 4 + 4 * n;
    }
    LoadEnd(bytes, at, seen);
  }

  lemma LoadStart(bytes: Data)
    ensures Flat([]) == [] && Ends([]) == [] && Load(bytes) == [] + Load(bytes[0..])
  {
    assert bytes[0..] == bytes;
  }

  lemma LoadStep(bytes: Data, at: nat, n: nat, seen: seq<Stream>)
    requires at + 4 <= |bytes| && n == Decode(bytes[at..at + 4])
    ensures if n == 0 || n > LONGEST_FRAME || |bytes| - at < 4 + 4 * n then seen + Load(bytes[at..]) == seen
            else seen + Load(bytes[at..]) == seen + [ReadTokens(bytes[at + 4..], n)] + Load(bytes[at + 4 + 4 * n..])
  {
    hide ReadTokens, Decode;
    var rest := bytes[at..];
    assert rest[..4] == bytes[at..at + 4];
    if !(n == 0 || n > LONGEST_FRAME || |bytes| - at < 4 + 4 * n) {
      assert rest[4..] == bytes[at + 4..] && rest[4 + 4 * n..] == bytes[at + 4 + 4 * n..];
    }
  }

  lemma LoadEnd(bytes: Data, at: nat, seen: seq<Stream>)
    requires at <= |bytes| < at + 4
    ensures seen + Load(bytes[at..]) == seen
  {
  }

  /** A flushed memory opens again with the same streams, log and index exactly when none of its streams is longer
      than a loadable frame; otherwise with the streams before the first that is. */
  method Reopen(m: CorpusIndex) returns (r: CorpusIndex)
    requires m.Valid() && m.flushed == |m.streams|
    ensures fresh(r) && r.Consistent() && r.streams <= m.streams
    ensures r.streams == m.streams <==> Loadable(m.streams)
    ensures Loadable(m.streams) ==>
              && r.Valid() && r.log == m.log && r.ends == m.ends && r.file == m.file
              && forall key: nat :: SitesFor(r.index, key) == SitesFor(m.index, key)
  {
    hide EncodeAll, Load, Flat, Ends, Sites;
    assert m.streams[..m.flushed] == m.streams;
    LoadsBackExactly(m.streams);
    r := new CorpusIndex.Open(m.c, m.file);
    ghost var loaded := Load(m.file);
    FlatConcat(loaded, m.streams[|loaded|..]);
    assert loaded + m.streams[|loaded|..] == m.streams;
    ghost var d: nat :| d <= |loaded| && FewestDropped(loaded, d, m.c.maxTokens) && r.streams == loaded[d..];
    assert loaded[0..] == loaded;
    assert d == 0;
  }
}
